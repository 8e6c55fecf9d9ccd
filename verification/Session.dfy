/**
 The session lifecycle, crates/conveyance-core/src/session/state.rs, and the established
 session that lives by it, crates/conveyance-core/src/session/mod.rs. The Noise transport
 is a value of any type `T` with functions that seal and open messages.
 */
module Session {
  import opened Wrappers
  import Watchdog

  // ---- the state machine ---------------------------------------------------------

  datatype SessionState = NoSession | Handshaking | Active | IdleWarning | Ended

  datatype EndReason =
    | IdleTimedOut | HardCap | PeerLost | UserEnded | KillSwitch | RemoteEnded | ProtocolViolation

  datatype Event =
    | BeginHandshake | HandshakeCompleted | Activity | WarningDue | IdleExpired | HardCapReached
    | PeerDisconnected | EndRequested(reason: EndReason) | Aborted

  datatype TransitionError = Illegal(from: SessionState, event: Event)

  function Transition(state: SessionState, event: Event): (r: Result<SessionState, TransitionError>)
    ensures r.Err? ==> r.error == Illegal(state, event)
    ensures state == Ended ==> r.Err?
    ensures r == Ok(NoSession) <==> state == Handshaking && event == Aborted
    ensures r == Ok(Handshaking) <==> state == NoSession && event == BeginHandshake
    ensures r == Ok(Active) <==> (state == Handshaking && event == HandshakeCompleted)
                                 || ((state == Active || state == IdleWarning) && event == Activity)
    ensures r == Ok(IdleWarning) <==> state == Active && event == WarningDue
    ensures r == Ok(Ended) <==> (state == Active || state == IdleWarning)
                                && (event == IdleExpired || event == HardCapReached || event == PeerDisconnected
                                    || event.EndRequested?)
  {
    match (state, event)
    case (NoSession, BeginHandshake) => Ok(Handshaking)
    case (Handshaking, HandshakeCompleted) => Ok(Active)
    case (Handshaking, Aborted) => Ok(NoSession)
    case (Active, Activity) => Ok(Active)
    case (IdleWarning, Activity) => Ok(Active)
    case (Active, WarningDue) => Ok(IdleWarning)
    case (Active, IdleExpired) => Ok(Ended)
    case (IdleWarning, IdleExpired) => Ok(Ended)
    case (Active, HardCapReached) => Ok(Ended)
    case (IdleWarning, HardCapReached) => Ok(Ended)
    case (Active, PeerDisconnected) => Ok(Ended)
    case (IdleWarning, PeerDisconnected) => Ok(Ended)
    case (Active, EndRequested(_)) => Ok(Ended)
    case (IdleWarning, EndRequested(_)) => Ok(Ended)
    case _ => Err(Illegal(state, event))
  }

  // ---- the established session ---------------------------------------------------

  datatype SessionError = NotActive | Noise

  /** What the transport does with a message; a failed read may leave a residue in the buffer. */
  datatype Cipher<!T> = Cipher(seal: (T, bytes) -> Option<(T, bytes)>, unseal: (T, bytes) -> (T, Result<bytes, bytes>))

  /** `signals` counts the activity signals put on the watchdog's channel. */
  datatype View<T> = View(
    state: SessionState, transport: Option<T>, scratch: bytes, warned: bool, ticking: bool, signals: nat)

  type Reply = Result<bytes, SessionError>

  predicate Established(state: SessionState) {
    state == Active || state == IdleWarning
  }

  function Sent<T>(s: View<T>, cipher: Cipher<T>, plaintext: bytes): (View<T>, Reply) {
    if !Established(s.state) || s.transport.None? then (s, Err(NotActive))
    else
      var r := cipher.seal(s.transport.value, plaintext);
      if r.None? then (s, Err(Noise)) else (s.(transport := Some(r.value.0)), Ok(r.value.1))
  }

  /** A failed read leaves its residue behind; a good one wipes the buffer. */
  function Opened<T>(s: View<T>, cipher: Cipher<T>, ciphertext: bytes): (View<T>, Reply) {
    if !Established(s.state) || s.transport.None? then (s, Err(NotActive))
    else
      var (t, r) := cipher.unseal(s.transport.value, ciphertext);
      if r.Err? then (s.(transport := Some(t), scratch := r.error), Err(Noise))
      else (s.(transport := Some(t), scratch := []), Ok(r.value))
  }

  /** The watchdog is signalled if there is one and its channel has room; a signal may be dropped. */
  function Nudged<T>(s: View<T>, room: bool): (View<T>, Reply) {
    var r := Transition(s.state, Activity);
    if r.Err? then (s, Err(NotActive))
    else (s.(state := r.value, warned := false, signals := s.signals + if s.ticking && room then 1 else 0), Ok([]))
  }

  function Closed<T>(s: View<T>, event: Event): View<T> {
    if Transition(s.state, event) == Ok(Ended) then
      s.(state := Ended, transport := None, scratch := [], ticking := false)
    else s
  }

  function Timed<T>(s: View<T>, what: Watchdog.What): View<T> {
    match what
    case WarningDue =>
      if Transition(s.state, WarningDue) == Ok(IdleWarning) then s.(state := IdleWarning, warned := true) else s
    case IdleExpired => Closed(s, EndRequested(IdleTimedOut))
    case HardCapReached => Closed(s, EndRequested(HardCap))
    case _ => s
  }

  class EstablishedSession<T> {
    const cipher: Cipher<T>
    var state: SessionState
    var transport: Option<T>
    var scratch: bytes
    var warned: bool
    var ticking: bool
    var signals: nat

    ghost function Now(): View<T>
      reads this
    {
      View(state, transport, scratch, warned, ticking, signals)
    }

    constructor (cipher: Cipher<T>, transport: T)
      ensures this.cipher == cipher && Now() == View(Active, Some(transport), [], false, false, 0)
    {
      this.cipher, this.state, this.transport := cipher, Active, Some(transport);
      this.scratch, this.warned, this.ticking, this.signals := [], false, false, 0;
    }

    method Send(plaintext: bytes) returns (r: Reply)
      modifies this
      ensures (Now(), r) == Sent(old(Now()), cipher, plaintext)
    {
      if !Established(state) { return Err(NotActive); }
      if transport.None? { return Err(NotActive); }
      var sealed := cipher.seal(transport.value, plaintext);
      if sealed.None? { return Err(Noise); }
      transport := Some(sealed.value.0);
      return Ok(sealed.value.1);
    }

    method Receive(ciphertext: bytes) returns (r: Reply)
      modifies this
      ensures (Now(), r) == Opened(old(Now()), cipher, ciphertext)
    {
      if !Established(state) { return Err(NotActive); }
      if transport.None? { return Err(NotActive); }
      scratch := seq(|ciphertext|, _ => 0);
      var (next, plaintext) := cipher.unseal(transport.value, ciphertext);
      transport := Some(next);
      if plaintext.Err? {
        scratch := plaintext.error;
        return Err(Noise);
      }
      scratch := [];
      return Ok(plaintext.value);
    }

    method StartTimers()
      modifies this
      ensures Now() == old(Now()).(ticking := true)
    {
      ticking := true;
    }

    method OnActivity(room: bool) returns (r: Reply)
      modifies this
      ensures (Now(), r) == Nudged(old(Now()), room)
    {
      var next := Transition(state, Activity);
      if next.Err? { return Err(NotActive); }
      state, warned := next.value, false;
      if ticking && room { signals := signals + 1; }
      return Ok([]);
    }

    method HandleTimerEvent(event: Watchdog.What) returns (reason: Option<EndReason>)
      modifies this
      ensures Now() == Timed(old(Now()), event)
      ensures reason == if event == Watchdog.IdleExpired then Some(IdleTimedOut)
                        else if event == Watchdog.HardCapReached then Some(HardCap) else None
    {
      match event
      case WarningDue =>
        if Transition(state, WarningDue) == Ok(IdleWarning) { state, warned := IdleWarning, true; }
        return None;
      case IdleExpired =>
        End(EndRequested(IdleTimedOut));
        return Some(IdleTimedOut);
      case HardCapReached =>
        End(EndRequested(HardCap));
        return Some(HardCap);
      case _ => return None;
    }

    /** End on request, or on the loss of the peer. */
    method End(event: Event)
      modifies this
      ensures Now() == Closed(old(Now()), event)
    {
      if Transition(state, event) == Ok(Ended) {
        state := Ended;
        Teardown();
      }
    }

    method Teardown()
      modifies this
      ensures Now() == old(Now()).(transport := None, scratch := [], ticking := false)
    {
      ticking := false;
      transport, scratch := None, [];
    }
  }

  // ---- histories -----------------------------------------------------------------

  datatype Call =
    | SendCall(data: bytes)
    | ReceiveCall(data: bytes)
    | ActivityCall(room: bool)
    | TimerCall(what: Watchdog.What)
    | StartTimersCall
    | EndCall(reason: EndReason)
    | DisconnectCall

  function Do<T>(s: View<T>, cipher: Cipher<T>, c: Call): (View<T>, Reply) {
    match c
    case SendCall(data) => Sent(s, cipher, data)
    case ReceiveCall(data) => Opened(s, cipher, data)
    case ActivityCall(room) => Nudged(s, room)
    case TimerCall(what) => (Timed(s, what), Ok([]))
    case StartTimersCall => (s.(ticking := true), Ok([]))
    case EndCall(reason) => (Closed(s, EndRequested(reason)), Ok([]))
    case DisconnectCall => (Closed(s, PeerDisconnected), Ok([]))
  }

  function After<T>(cipher: Cipher<T>, transport: T, calls: seq<Call>, n: nat): View<T>
    requires n <= |calls|
  {
    if n == 0 then View(Active, Some(transport), [], false, false, 0)
    else Do(After(cipher, transport, calls, n - 1), cipher, calls[n - 1]).0
  }

  predicate Guarded(c: Call) {
    c.SendCall? || c.ReceiveCall? || c.ActivityCall?
  }

  predicate Ends(c: Call) {
    || c.EndCall? || c.DisconnectCall?
    || (c.TimerCall? && (c.what == Watchdog.IdleExpired || c.what == Watchdog.HardCapReached))
  }

  /** A session is live or ended, and has a transport exactly while it is live. */
  predicate Sane<T>(s: View<T>) {
    if Established(s.state) then s.transport.Some? else s.state == Ended && s.transport.None? && s.scratch == []
  }

  lemma StepSane<T>(s: View<T>, cipher: Cipher<T>, c: Call)
    requires Sane(s)
    ensures var (t, r) := Do(s, cipher, c);
      && Sane(t) && (t.state == Ended <==> s.state == Ended || Ends(c))
      && (Guarded(c) ==> (r == Err(NotActive) <==> s.state == Ended))
  {
  }

  lemma {:induction false} AlwaysSane<T>(cipher: Cipher<T>, transport: T, calls: seq<Call>, n: nat)
    requires n <= |calls|
    ensures var s := After(cipher, transport, calls, n);
      Sane(s) && (s.state == Ended <==> exists i :: 0 <= i < n && Ends(calls[i]))
  {
    if n > 0 {
      AlwaysSane(cipher, transport, calls, n - 1);
      StepSane(After(cipher, transport, calls, n - 1), cipher, calls[n - 1]);
    }
  }

  /**
   For any calls in any order: sending, receiving and activity are refused exactly from the
   first ending call on (idle expiry and the hard cap among them), and from then on no
   transport and no buffered plaintext is held.
   */
  lemma RefusedOnceEnded<T>(cipher: Cipher<T>, transport: T, calls: seq<Call>, n: nat)
    requires n < |calls| && Guarded(calls[n])
    ensures var s := After(cipher, transport, calls, n);
      var ended := exists i :: 0 <= i < n && Ends(calls[i]);
      && (Do(s, cipher, calls[n]).1 == Err(NotActive) <==> ended)
      && (ended ==> s.state == Ended && s.transport.None? && s.scratch == [])
  {
    AlwaysSane(cipher, transport, calls, n);
    StepSane(After(cipher, transport, calls, n), cipher, calls[n]);
  }

  // ---- warnings ----------------------------------------------------------------------

  /** The watchdog has warned, and nothing has happened since. */
  predicate WarnedSince(calls: seq<Call>, i: nat, n: nat)
    requires n <= |calls|
  {
    i < n && calls[i] == TimerCall(Watchdog.WarningDue) && forall k :: i < k < n ==> !calls[k].ActivityCall?
  }

  lemma WarnStep<T>(s: View<T>, cipher: Cipher<T>, c: Call)
    requires Sane(s)
    ensures var t := Do(s, cipher, c).0;
      t.state != Ended ==>
        (t.state == IdleWarning
         <==> c == TimerCall(Watchdog.WarningDue) || (s.state == IdleWarning && !c.ActivityCall?))
  {
  }

  /** Over every history a live session is warned if and only if there was a warning and no activity since. */
  lemma {:induction false} WarnedIff<T>(cipher: Cipher<T>, transport: T, calls: seq<Call>, n: nat)
    requires n <= |calls| && After(cipher, transport, calls, n).state != Ended
    ensures After(cipher, transport, calls, n).state == IdleWarning <==> exists i: nat :: WarnedSince(calls, i, n)
  {
    if n > 0 {
      var s, c := After(cipher, transport, calls, n - 1), calls[n - 1];
      AlwaysSane(cipher, transport, calls, n - 1);
      StepSane(s, cipher, c);
      WarnedIff(cipher, transport, calls, n - 1);
      WarnStep(s, cipher, c);
      if c == TimerCall(Watchdog.WarningDue) {
        assert WarnedSince(calls, n - 1, n);
      } else {
        if i: nat :| WarnedSince(calls, i, n) { assert WarnedSince(calls, i, n - 1) && !c.ActivityCall?; }
        var before := n - 1;
        if i: nat :| WarnedSince(calls, i, before) { assert !c.ActivityCall? ==> WarnedSince(calls, i, n); }
      }
    }
  }
}
