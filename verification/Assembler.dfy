/**
 Byte-stream reassembly, after crates/conveyance-wire/src/assembler.rs: raw link bytes in,
 whole application messages out, however the link cuts the bytes.
 */
module Assembler {
  import opened Wrappers
  import opened Framing
  import F = Framer

  datatype State = State(buffer: bytes, framer: F.State)

  /** What taking every whole frame off a buffer leaves and yields. */
  datatype Drained = Drained(state: State, messages: seq<bytes>, error: Option<FrameError>)

  function Fresh(): State {
    State([], F.Fresh(DEFAULT_REASSEMBLY_CAP))
  }

  /** The buffer starts with a whole frame. */
  predicate HasFrame(buffer: bytes) {
    |buffer| >= HEADER_LEN && |buffer| >= HEADER_LEN + Declared(buffer)
  }

  function FrameLength(buffer: bytes): (n: nat)
    requires HasFrame(buffer)
    ensures HEADER_LEN <= n <= |buffer|
  {
    HEADER_LEN + Declared(buffer)
  }

  function Listed(m: Option<bytes>): seq<bytes> {
    if m.Some? then [m.value] else []
  }

  function Drain(s: State): Drained
    decreases |s.buffer|
  {
    if !HasFrame(s.buffer) then Drained(s, [], None)
    else
      var n := FrameLength(s.buffer);
      var (framer, answer) := F.Ingest(s.framer, s.buffer[..n]);
      var s' := State(s.buffer[n..], framer);
      if answer.Err? then Drained(s', [], Some(answer.error))
      else
        var d := Drain(s');
        Drained(d.state, Listed(answer.value) + d.messages, d.error)
  }

  /** One turn of the loop. */
  lemma DrainStep(s: State, done: seq<bytes>, framer: F.State, answer: F.Answer)
    requires HasFrame(s.buffer) && (framer, answer) == F.Ingest(s.framer, s.buffer[..FrameLength(s.buffer)])
    ensures var s' := State(s.buffer[FrameLength(s.buffer)..], framer);
      if answer.Err? then Drain(s) == Drained(s', [], Some(answer.error))
      else
        && Drain(s) == Drained(Drain(s').state, Listed(answer.value) + Drain(s').messages, Drain(s').error)
        && done + Drain(s).messages == done + Listed(answer.value) + Drain(s').messages
  {
  }

  type Answer = Result<seq<bytes>, FrameError>

  function Ingest(s: State, chunk: bytes): (State, Answer) {
    var s' := s.(buffer := s.buffer + chunk);
    if |s'.buffer| > DEFAULT_REASSEMBLY_CAP then (s', Err(MessageTooLarge(|s'.buffer|, DEFAULT_REASSEMBLY_CAP)))
    else
      var d := Drain(s');
      (d.state, if d.error.Some? then Err(d.error.value) else Ok(d.messages))
  }

  predicate Idle(s: State) {
    s.buffer == [] && !s.framer.assembling && s.framer.buffer == []
  }

  class InboundAssembler {
    var buffer: bytes
    const framer: F.FrameReassembler

    ghost function View(): State
      reads this, framer
    {
      State(buffer, framer.View())
    }

    constructor ()
      ensures View() == Fresh() && fresh(framer)
    {
      buffer := [];
      framer := new F.FrameReassembler(DEFAULT_REASSEMBLY_CAP);
    }

    method IsIdle() returns (idle: bool)
      ensures idle <==> Idle(View())
    {
      idle := buffer == [] && !framer.assembling && framer.buffer == [];
    }

    method IngestBytes(chunk: bytes) returns (r: Answer)
      modifies this, framer
      ensures (View(), r) == Ingest(old(View()), chunk)
    {
      buffer := buffer + chunk;
      if |buffer| > DEFAULT_REASSEMBLY_CAP {
        return Err(MessageTooLarge(|buffer|, DEFAULT_REASSEMBLY_CAP));
      }
      r := DrainFrames();
    }

    method DrainFrames() returns (r: Answer)
      modifies this, framer
      ensures var d := Drain(old(View()));
        View() == d.state && r == if d.error.Some? then Err(d.error.value) else Ok(d.messages)
    {
      var messages: seq<bytes> := [];
      ghost var all := Drain(View());
      while HasFrame(buffer)
        invariant Drain(View()).state == all.state && Drain(View()).error == all.error
        invariant messages + Drain(View()).messages == all.messages
        decreases |buffer|
      {
        ghost var before := View();
        // The prefix is a u16, so the check of it against the cap cannot fire.
        assert Declared(buffer) <= DEFAULT_REASSEMBLY_CAP;
        var total := FrameLength(buffer);
        var frame := buffer[..total];
        buffer := buffer[total..];
        var answer := framer.IngestFrame(frame);
        DrainStep(before, messages, framer.View(), answer);
        if answer.Err? { return Err(answer.error); }
        messages := messages + Listed(answer.value);
      }
      assert messages + [] == messages;
      return Ok(messages);
    }
  }

  /** A call that brings the buffer past 131072 bytes is refused with its size, and leaves the framer alone. */
  lemma OversizeIsRefused(s: State, chunk: bytes)
    requires |s.buffer| + |chunk| > 131072
    ensures Ingest(s, chunk).1 == Err(MessageTooLarge(|s.buffer| + |chunk|, 131072))
    ensures Ingest(s, chunk).0.framer == s.framer
  {
  }

  // ---- cutting the stream --------------------------------------------------------

  lemma HasFrameLonger(x: bytes, y: bytes)
    requires HasFrame(x)
    ensures HasFrame(x + y) && FrameLength(x + y) == FrameLength(x)
    ensures (x + y)[..FrameLength(x)] == x[..FrameLength(x)] && (x + y)[FrameLength(x)..] == x[FrameLength(x)..] + y
  {
  }

  function With(s: State, more: bytes): State {
    s.(buffer := s.buffer + more)
  }

  /** Draining a longer buffer is draining its front, then draining what is left with the rest behind it. */
  lemma {:induction false} DrainSplit(s: State, more: bytes)
    ensures var d, e := Drain(s), Drain(With(s, more));
      if d.error.Some? then e.error == d.error
      else
        var f := Drain(With(d.state, more));
        e == Drained(f.state, d.messages + f.messages, f.error)
    decreases |s.buffer|
  {
    if HasFrame(s.buffer) {
      var n := FrameLength(s.buffer);
      var (framer, answer) := F.Ingest(s.framer, s.buffer[..n]);
      var s' := State(s.buffer[n..], framer);
      HasFrameLonger(s.buffer, more);
      DrainStep(s, [], framer, answer);
      DrainStep(With(s, more), [], framer, answer);
      if answer.Ok? {
        DrainSplit(s', more);
      }
    }
  }

  lemma {:induction false} DrainShrinks(s: State)
    ensures |Drain(s).state.buffer| <= |s.buffer|
    decreases |s.buffer|
  {
    if HasFrame(s.buffer) {
      var (framer, answer) := F.Ingest(s.framer, s.buffer[..FrameLength(s.buffer)]);
      DrainStep(s, [], framer, answer);
      if answer.Ok? {
        DrainShrinks(State(s.buffer[FrameLength(s.buffer)..], framer));
      }
    }
  }

  /** Successive calls, stopping at the first error. */
  function Feed(s: State, chunks: seq<bytes>): (State, Answer)
    decreases |chunks|
  {
    if chunks == [] then (s, Ok([]))
    else
      var (s', first) := Ingest(s, chunks[0]);
      if first.Err? then (s', first)
      else
        var (s'', rest) := Feed(s', chunks[1..]);
        (s'', if rest.Err? then rest else Ok(first.value + rest.value))
  }

  /** No call finds more than the cap in its residue plus its chunk. */
  predicate WithinCap(s: State, chunks: seq<bytes>)
    decreases |chunks|
  {
    chunks == [] ||
    (|s.buffer| + |chunks[0]| <= DEFAULT_REASSEMBLY_CAP && WithinCap(Ingest(s, chunks[0]).0, chunks[1..]))
  }

  /** If the whole stream drains without error, any calls within the cap give the same messages and the same state. */
  lemma {:induction false} FeedIsDrain(s: State, chunks: seq<bytes>)
    requires (chunks != [] || !HasFrame(s.buffer)) && WithinCap(s, chunks)
    requires Drain(With(s, Flatten(chunks))).error.None?
    ensures var d := Drain(With(s, Flatten(chunks))); Feed(s, chunks) == (d.state, Ok(d.messages))
    decreases |chunks|
  {
    var all := Flatten(chunks);
    if chunks == [] {
      assert With(s, all) == s;
    } else {
      var front, rest := With(s, chunks[0]), Flatten(chunks[1..]);
      assert With(s, all) == With(front, rest);
      DrainSplit(front, rest);
      DrainStops(front);
      FeedIsDrain(Drain(front).state, chunks[1..]);
    }
  }

  lemma {:induction false} DrainStops(s: State)
    requires Drain(s).error.None?
    ensures !HasFrame(Drain(s).state.buffer)
    decreases |s.buffer|
  {
    if HasFrame(s.buffer) {
      var (framer, answer) := F.Ingest(s.framer, s.buffer[..FrameLength(s.buffer)]);
      DrainStep(s, [], framer, answer);
      DrainStops(State(s.buffer[FrameLength(s.buffer)..], framer));
    }
  }

  lemma {:induction false} ShortStreamsFit(s: State, chunks: seq<bytes>)
    requires |s.buffer| + |Flatten(chunks)| <= DEFAULT_REASSEMBLY_CAP
    ensures WithinCap(s, chunks)
    decreases |chunks|
  {
    if chunks != [] {
      DrainShrinks(With(s, chunks[0]));
      ShortStreamsFit(Ingest(s, chunks[0]).0, chunks[1..]);
    }
  }

  /**
   If one call accepts a byte string, every way of cutting that string into successive calls
   accepts it too, with the same messages in the same order and the same state at the end.
   */
  lemma ChunkingDoesNotMatter(s: State, stream: bytes, chunks: seq<bytes>)
    requires (chunks != [] || !HasFrame(s.buffer)) && Flatten(chunks) == stream && Ingest(s, stream).1.Ok?
    ensures Feed(s, chunks) == Ingest(s, stream)
  {
    ShortStreamsFit(s, chunks);
    FeedIsDrain(s, chunks);
  }

  /** The assembler hands the framer whole frames only, so two of its errors never surface. */
  lemma {:induction false} NeverTruncated(s: State)
    ensures var e := Drain(s).error;
      e.Some? ==> !e.value.FrameTruncated? && !e.value.FrameLengthMismatch? && !e.value.InvalidSplitSize?
    decreases |s.buffer|
  {
    if HasFrame(s.buffer) {
      var frame := s.buffer[..FrameLength(s.buffer)];
      assert Whole(frame);
      var (framer, answer) := F.Ingest(s.framer, frame);
      DrainStep(s, [], framer, answer);
      NeverTruncated(State(s.buffer[FrameLength(s.buffer)..], framer));
    }
  }

  // ---- what was sent comes out ---------------------------------------------------

  /** The framer over whole frames, stopping at the first error. */
  function Run(f: F.State, frames: seq<bytes>): (F.State, Answer)
    decreases |frames|
  {
    if frames == [] then (f, Ok([]))
    else
      var (f', answer) := F.Ingest(f, frames[0]);
      if answer.Err? then (f', Err(answer.error))
      else
        var (f'', rest) := Run(f', frames[1..]);
        (f'', if rest.Err? then rest else Ok(Listed(answer.value) + rest.value))
  }

  lemma {:induction false} DrainIsRun(f: F.State, frames: seq<bytes>, g: F.State, ms: seq<bytes>)
    requires (forall k :: 0 <= k < |frames| ==> Whole(frames[k])) && Run(f, frames) == (g, Ok(ms))
    ensures Drain(State(Flatten(frames), f)) == Drained(State([], g), ms, None)
    decreases |frames|
  {
    if frames != [] {
      var f', out, rest := RunUnstep(f, frames, g, ms);
      assert Whole(frames[0]);
      DrainIsRun(f', frames[1..], g, rest);
      DrainFirst(f, frames[0], Flatten(frames[1..]), f', out);
    }
  }

  lemma DrainFirst(f: F.State, frame: bytes, rest: bytes, f': F.State, out: Option<bytes>)
    requires Whole(frame) && F.Ingest(f, frame) == (f', Ok(out))
    ensures var d := Drain(State(rest, f'));
      Drain(State(frame + rest, f)) == Drained(d.state, Listed(out) + d.messages, d.error)
  {
    HasFrameLonger(frame, rest);
    assert frame[..FrameLength(frame)] == frame && frame[FrameLength(frame)..] + rest == rest;
    DrainStep(State(frame + rest, f), [], f', Ok(out));
  }

  lemma RunStep(f: F.State, frame: bytes, rest: seq<bytes>, f': F.State, out: Option<bytes>, g: F.State, ms: seq<bytes>)
    requires F.Ingest(f, frame) == (f', Ok(out)) && Run(f', rest) == (g, Ok(ms))
    ensures Run(f, [frame] + rest) == (g, Ok(Listed(out) + ms))
  {
    assert ([frame] + rest)[1..] == rest;
  }

  lemma RunUnstep(f: F.State, frames: seq<bytes>, g: F.State, all: seq<bytes>)
    returns (f': F.State, out: Option<bytes>, ms: seq<bytes>)
    requires frames != [] && Run(f, frames) == (g, Ok(all))
    ensures F.Ingest(f, frames[0]) == (f', Ok(out)) && Run(f', frames[1..]) == (g, Ok(ms)) && all == Listed(out) + ms
  {
    f', out := F.Ingest(f, frames[0]).0, F.Ingest(f, frames[0]).1.value;
    ms := Run(f', frames[1..]).1.value;
  }

  lemma {:induction false} RunAppend(f: F.State, xs: seq<bytes>, ys: seq<bytes>, g: F.State, ms: seq<bytes>,
                                     h: F.State, ns: seq<bytes>)
    requires Run(f, xs) == (g, Ok(ms)) && Run(g, ys) == (h, Ok(ns))
    ensures Run(f, xs + ys) == (h, Ok(ms + ns))
    decreases |xs|
  {
    if xs == [] {
      assert xs + ys == ys && ms + ns == ns;
    } else {
      var f', out, ms' := RunUnstep(f, xs, g, ms);
      assert xs == [xs[0]] + xs[1..];
      RunAppend(f', xs[1..], ys, g, ms', h, ns);
      RunStep(f, xs[0], xs[1..] + ys, f', out, h, ms' + ns);
      Associate([xs[0]], xs[1..], ys);
      Associate(Listed(out), ms', ns);
    }
  }

  /** ys is xs with ACK frames put in anywhere. */
  ghost predicate WithAcks(xs: seq<bytes>, ys: seq<bytes>)
    decreases |ys|
  {
    if ys == [] then xs == []
    else
      || (xs != [] && xs[0] == ys[0] && WithAcks(xs[1..], ys[1..]))
      || ((exists acked: U16 :: ys[0] == EncodeAck(acked)) && WithAcks(xs, ys[1..]))
  }

  lemma AckIsIgnored(f: F.State, acked: U16)
    ensures F.Ingest(f, EncodeAck(acked)) == (f, Ok(None)) && Whole(EncodeAck(acked))
  {
    FrameFields(acked, FLAG_ACK, []);
  }

  lemma {:induction false} AcksAreWhole(xs: seq<bytes>, ys: seq<bytes>, k: nat)
    requires WithAcks(xs, ys) && k < |ys| && forall i :: 0 <= i < |xs| ==> Whole(xs[i])
    ensures Whole(ys[k])
    decreases |ys|
  {
    if xs != [] && xs[0] == ys[0] && WithAcks(xs[1..], ys[1..]) {
      if k > 0 { AcksAreWhole(xs[1..], ys[1..], k - 1); } else { assert Whole(xs[0]); }
    } else if k > 0 {
      AcksAreWhole(xs, ys[1..], k - 1);
    } else {
      var acked: U16 :| ys[0] == EncodeAck(acked);
      AckIsIgnored(Fresh().framer, acked);
    }
  }

  lemma {:induction false} AcksDoNotMatter(f: F.State, xs: seq<bytes>, ys: seq<bytes>, g: F.State, ms: seq<bytes>)
    requires WithAcks(xs, ys) && Run(f, xs) == (g, Ok(ms))
    ensures Run(f, ys) == (g, Ok(ms))
    decreases |ys|
  {
    if ys != [] {
      assert ys == [ys[0]] + ys[1..];
      if xs != [] && xs[0] == ys[0] && WithAcks(xs[1..], ys[1..]) {
        var f', out, ms' := RunUnstep(f, xs, g, ms);
        AcksDoNotMatter(f', xs[1..], ys[1..], g, ms');
        RunStep(f, ys[0], ys[1..], f', out, g, ms');
      } else {
        var acked: U16 :| ys[0] == EncodeAck(acked);
        AckIsIgnored(f, acked);
        AcksDoNotMatter(f, xs, ys[1..], g, ms);
        RunStep(f, ys[0], ys[1..], f, None, g, ms);
        assert Listed(None) + ms == ms;
      }
    }
  }

  lemma RunOne(f: F.State, frame: bytes, f': F.State, out: Option<bytes>)
    requires F.Ingest(f, frame) == (f', Ok(out))
    ensures Run(f, [frame]) == (f', Ok(Listed(out)))
  {
    RunStep(f, frame, [], f', out, f', []);
    assert [frame] + [] == [frame] && Listed(out) + [] == Listed(out);
  }

  /** The rest of a message, taken in by a machine that holds its beginning. */
  lemma {:induction false} RunRest(f: F.State, message: bytes, maxPayload: nat, sn: U16)
    requires 0 < maxPayload <= 0xFFFF && f.assembling && f.nextSeq == Some(sn) && |f.buffer| + |message| <= f.cap
    ensures var fs := Frames(message, maxPayload, sn, false);
      && Run(f, fs) == (F.State(f.cap, false, Some(Wrap(sn, |fs|)), []), Ok([f.buffer + message]))
      && forall k :: 0 <= k < |fs| ==> Whole(fs[k])
    decreases |message|, 1
  {
    if |message| <= maxPayload {
      FramesLast(message, maxPayload, sn);
      RunLast(f, message, sn);
    } else {
      var payload, left := message[..maxPayload], message[maxPayload..];
      FramesSplit(message, maxPayload, sn, false);
      RunOn(f, payload, left, maxPayload, sn);
    }
  }

  lemma FramesLast(message: bytes, maxPayload: nat, sn: U16)
    requires |message| <= maxPayload <= 0xFFFF && 0 < maxPayload
    ensures Frames(message, maxPayload, sn, false) == [EncodeFrame(sn, FLAG_END, message)]
    ensures Wrap(sn, 1) == Next(sn)
  {
  }

  lemma FramesSplit(message: bytes, maxPayload: nat, sn: U16, first: bool)
    requires 0 < maxPayload <= 0xFFFF && |message| > maxPayload
    ensures Frames(message, maxPayload, sn, first)
         == [EncodeFrame(sn, if first then FLAG_START else 0, message[..maxPayload])]
            + Frames(message[maxPayload..], maxPayload, Next(sn), false)
    ensures message[..maxPayload] + message[maxPayload..] == message
  {
  }

  /** A middle frame and the frames of what is left. */
  lemma {:induction false} RunOn(f: F.State, payload: bytes, left: bytes, maxPayload: nat, sn: U16)
    requires 0 < |payload| == maxPayload <= 0xFFFF && f.assembling && f.nextSeq == Some(sn)
    requires |f.buffer| + |payload + left| <= f.cap
    ensures var fs := [EncodeFrame(sn, 0, payload)] + Frames(left, maxPayload, Next(sn), false);
      && Run(f, fs) == (F.State(f.cap, false, Some(Wrap(sn, |fs|)), []), Ok([f.buffer + (payload + left)]))
      && forall k :: 0 <= k < |fs| ==> Whole(fs[k])
    decreases |left|, 2
  {
    var f' := f.(nextSeq := Some(Next(sn)), buffer := f.buffer + payload);
    var fs := Frames(left, maxPayload, Next(sn), false);
    RunRest(f', left, maxPayload, Next(sn));
    Associate(f.buffer, payload, left);
    WrapShift(sn, |fs|);
    RunMiddle(f, payload, sn, fs, F.State(f.cap, false, Some(Wrap(Next(sn), |fs|)), []), [f.buffer + (payload + left)]);
    WholeFrames(EncodeFrame(sn, 0, payload), fs);
  }

  lemma WrapShift(sn: U16, n: nat)
    ensures Wrap(Next(sn), n) == Wrap(sn, n + 1)
  {
  }

  lemma RunLast(f: F.State, message: bytes, sn: U16)
    requires |message| <= 0xFFFF && f.assembling && f.nextSeq == Some(sn) && |f.buffer| + |message| <= f.cap
    ensures var frame := EncodeFrame(sn, FLAG_END, message);
      Run(f, [frame]) == (F.State(f.cap, false, Some(Next(sn)), []), Ok([f.buffer + message])) && Whole(frame)
  {
    FrameFields(sn, FLAG_END, message);
    RunOne(f, EncodeFrame(sn, FLAG_END, message), F.State(f.cap, false, Some(Next(sn)), []), Some(f.buffer + message));
  }

  lemma RunMiddle(f: F.State, payload: bytes, sn: U16, rest: seq<bytes>, g: F.State, ms: seq<bytes>)
    requires |payload| <= 0xFFFF && f.assembling && f.nextSeq == Some(sn) && |f.buffer| + |payload| <= f.cap
    requires Run(f.(nextSeq := Some(Next(sn)), buffer := f.buffer + payload), rest) == (g, Ok(ms))
    ensures var frame := EncodeFrame(sn, 0, payload); Run(f, [frame] + rest) == (g, Ok(ms)) && Whole(frame)
  {
    FrameFields(sn, 0, payload);
    RunStep(f, EncodeFrame(sn, 0, payload), rest, f.(nextSeq := Some(Next(sn)), buffer := f.buffer + payload),
            None, g, ms);
    assert Listed(None) + ms == ms;
  }

  /** Between messages, expecting sn or anything. */
  predicate Ready(f: F.State, sn: U16) {
    f.cap == DEFAULT_REASSEMBLY_CAP && !f.assembling && f.buffer == [] && (f.nextSeq.None? || f.nextSeq == Some(sn))
  }

  lemma RunOnly(f: F.State, message: bytes, sn: U16)
    requires |message| <= 0xFFFF && Ready(f, sn)
    ensures var frame := EncodeFrame(sn, FLAG_START + FLAG_END, message);
      Run(f, [frame]) == (f.(nextSeq := Some(Next(sn))), Ok([message])) && Whole(frame)
  {
    FrameFields(sn, FLAG_START + FLAG_END, message);
    RunOne(f, EncodeFrame(sn, FLAG_START + FLAG_END, message), f.(nextSeq := Some(Next(sn))), Some(message));
  }

  lemma RunFirst(f: F.State, payload: bytes, sn: U16, rest: seq<bytes>, g: F.State, ms: seq<bytes>)
    requires |payload| <= 0xFFFF && Ready(f, sn)
    requires Run(F.State(f.cap, true, Some(Next(sn)), payload), rest) == (g, Ok(ms))
    ensures var frame := EncodeFrame(sn, FLAG_START, payload); Run(f, [frame] + rest) == (g, Ok(ms)) && Whole(frame)
  {
    FrameFields(sn, FLAG_START, payload);
    RunStep(f, EncodeFrame(sn, FLAG_START, payload), rest, F.State(f.cap, true, Some(Next(sn)), payload), None, g, ms);
    assert Listed(None) + ms == ms;
  }

  /** One message, split at any legal payload size from any sequence number, comes out as it went in. */
  lemma RunMessage(f: F.State, message: bytes, maxPayload: nat, sn: U16)
    requires 0 < maxPayload <= 0xFFFF && |message| <= DEFAULT_REASSEMBLY_CAP && Ready(f, sn)
    ensures var fs := Frames(message, maxPayload, sn, true);
      && Run(f, fs) == (f.(nextSeq := Some(Wrap(sn, |fs|))), Ok([message]))
      && forall k :: 0 <= k < |fs| ==> Whole(fs[k])
  {
    if |message| <= maxPayload {
      RunOnly(f, message, sn);
    } else {
      FramesSplit(message, maxPayload, sn, true);
      RunSplit(f, message[..maxPayload], message[maxPayload..], maxPayload, sn);
    }
  }

  /** A first frame and the frames of what is left. */
  lemma RunSplit(f: F.State, payload: bytes, left: bytes, maxPayload: nat, sn: U16)
    requires 0 < |payload| == maxPayload <= 0xFFFF && |payload| + |left| <= DEFAULT_REASSEMBLY_CAP && Ready(f, sn)
    ensures var fs := [EncodeFrame(sn, FLAG_START, payload)] + Frames(left, maxPayload, Next(sn), false);
      && Run(f, fs) == (f.(nextSeq := Some(Wrap(sn, |fs|))), Ok([payload + left]))
      && forall k :: 0 <= k < |fs| ==> Whole(fs[k])
  {
    var fs := Frames(left, maxPayload, Next(sn), false);
    var g := f.(nextSeq := Some(Wrap(sn, |fs| + 1)));
    WrapShift(sn, |fs|);
    RunRest(F.State(f.cap, true, Some(Next(sn)), payload), left, maxPayload, Next(sn));
    assert F.State(f.cap, false, Some(Wrap(Next(sn), |fs|)), []) == g;
    RunFirst(f, payload, sn, fs, g, [payload + left]);
    WholeFrames(EncodeFrame(sn, FLAG_START, payload), fs);
  }

  lemma WholeFrames(frame: bytes, fs: seq<bytes>)
    requires Whole(frame) && forall k :: 0 <= k < |fs| ==> Whole(fs[k])
    ensures forall k :: 0 <= k < |[frame] + fs| ==> Whole(([frame] + fs)[k])
  {
  }

  /** One message and the payload size it is split at. */
  datatype Outgoing = Outgoing(message: bytes, maxPayload: nat)

  predicate Sendable(out: Outgoing) {
    0 < out.maxPayload <= 0xFFFF && |out.message| <= DEFAULT_REASSEMBLY_CAP
  }

  /** The frames of several messages, each numbered on from the one before. */
  function AllFrames(outs: seq<Outgoing>, sn: U16): seq<bytes>
    requires forall k :: 0 <= k < |outs| ==> Sendable(outs[k])
    decreases |outs|
  {
    if outs == [] then []
    else
      assert Sendable(outs[0]);
      var fs := Frames(outs[0].message, outs[0].maxPayload, sn, true);
      fs + AllFrames(outs[1..], Wrap(sn, |fs|))
  }

  function Messages(outs: seq<Outgoing>): seq<bytes> {
    seq(|outs|, k requires 0 <= k < |outs| => outs[k].message)
  }

  lemma {:induction false} RunAll(f: F.State, outs: seq<Outgoing>, sn: U16)
    requires (forall k :: 0 <= k < |outs| ==> Sendable(outs[k])) && Ready(f, sn)
    ensures var (f', r) := Run(f, AllFrames(outs, sn));
      && r == Ok(Messages(outs)) && !f'.assembling && f'.buffer == []
    ensures forall k :: 0 <= k < |AllFrames(outs, sn)| ==> Whole(AllFrames(outs, sn)[k])
    decreases |outs|
  {
    if outs == [] {
      assert Messages(outs) == [];
    } else {
      var out := outs[0];
      assert Sendable(out);
      var fs := Frames(out.message, out.maxPayload, sn, true);
      var next := Wrap(sn, |fs|);
      RunMessage(f, out.message, out.maxPayload, sn);
      RunAll(f.(nextSeq := Some(next)), outs[1..], next);
      var rest := AllFrames(outs[1..], next);
      RunAppend(f, fs, rest, f.(nextSeq := Some(next)), [out.message],
                Run(f.(nextSeq := Some(next)), rest).0, Messages(outs[1..]));
      assert Messages(outs) == [out.message] + Messages(outs[1..]);
    }
  }

  /**
   Any messages of at most 128 KiB, split at any payload sizes with chained sequence numbers,
   with ACK frames put in at any frame boundaries and the stream cut into any chunks that
   respect the cap, come out exactly as sent and leave the assembler idle.
   */
  lemma StreamRoundTrip(s: State, outs: seq<Outgoing>, sn: U16, frames: seq<bytes>, chunks: seq<bytes>)
    requires s.buffer == [] && Ready(s.framer, sn) && forall k :: 0 <= k < |outs| ==> Sendable(outs[k])
    requires WithAcks(AllFrames(outs, sn), frames)
    requires Flatten(chunks) == Flatten(frames) && WithinCap(s, chunks)
    ensures Feed(s, chunks).1 == Ok(Messages(outs)) && Idle(Feed(s, chunks).0)
  {
    var plain := AllFrames(outs, sn);
    var g := Run(s.framer, plain).0;
    RunAll(s.framer, outs, sn);
    AcksDoNotMatter(s.framer, plain, frames, g, Messages(outs));
    forall k | 0 <= k < |frames| ensures Whole(frames[k]) {
      AcksAreWhole(plain, frames, k);
    }
    FedAsRun(s, frames, chunks, g, Messages(outs));
  }

  /** Any chunks of a run of whole frames give what the run gives. */
  lemma FedAsRun(s: State, frames: seq<bytes>, chunks: seq<bytes>, g: F.State, ms: seq<bytes>)
    requires s.buffer == [] && Run(s.framer, frames) == (g, Ok(ms))
    requires forall k :: 0 <= k < |frames| ==> Whole(frames[k])
    requires Flatten(chunks) == Flatten(frames) && WithinCap(s, chunks)
    ensures Feed(s, chunks) == (State([], g), Ok(ms))
  {
    DrainIsRun(s.framer, frames, g, ms);
    assert With(s, Flatten(chunks)) == State(Flatten(frames), s.framer);
    FeedIsDrain(s, chunks);
  }
}
