/**
 Session timers, crates/conveyance-core/src/session/timers.rs: the bounds on the
 parameters and the watchdog loop, with urgent deadlines. Times are milliseconds since
 the watchdog started; a trace is what the watchdog saw and did, in order.
 */
module Watchdog {
  import opened Wrappers

  datatype SessionParams = SessionParams(idle: nat, warn: nat, cap: nat)

  const IDLE_MIN := 300_000
  const IDLE_MAX := 14_400_000
  const CAP_MIN := 1_800_000
  const CAP_MAX := 86_400_000

  /** What the loop relies on: the warning point lies inside the idle window. */
  predicate Usable(params: SessionParams) {
    params.warn < params.idle
  }

  /** Accepted as given or refused; never clamped. */
  function Validated(idle: nat, warn: nat, cap: nat): (r: Result<SessionParams, ()>)
    ensures r.Ok? <==> IDLE_MIN <= idle <= IDLE_MAX && CAP_MIN <= cap <= CAP_MAX && warn < idle
    ensures r.Ok? ==> r.value == SessionParams(idle, warn, cap) && Usable(r.value)
  {
    if !(IDLE_MIN <= idle <= IDLE_MAX) then Err(())
    else if !(CAP_MIN <= cap <= CAP_MAX) then Err(())
    else if warn >= idle then Err(())
    else Ok(SessionParams(idle, warn, cap))
  }

  /** Activity was signalled, or the owner dropped its end of the channel. */
  datatype Signal = Signal(at: nat, closed: bool)

  datatype What = Activity | OwnerGone | WarningDue | WarningUnheard | IdleExpired | HardCapReached

  datatype Occurrence = At(at: nat, what: What)

  predicate InOrder(signals: seq<Signal>) {
    forall i, j :: 0 <= i < j < |signals| ==> signals[i].at <= signals[j].at
  }

  predicate Final(what: What) {
    what != Activity && what != WarningDue
  }

  // ---- reading a trace -----------------------------------------------------------

  /** When the idle window running at the end of the trace began. */
  function WindowStart(trace: seq<Occurrence>): nat {
    if trace == [] then 0
    else if trace[|trace| - 1].what == Activity then trace[|trace| - 1].at
    else WindowStart(trace[..|trace| - 1])
  }

  /** The window has had its warning. */
  predicate Warned(trace: seq<Occurrence>) {
    trace != [] && trace[|trace| - 1].what != Activity
    && (trace[|trace| - 1].what == WarningDue || Warned(trace[..|trace| - 1]))
  }

  function LastTime(trace: seq<Occurrence>): nat {
    if trace == [] then 0 else trace[|trace| - 1].at
  }

  function IdleDeadline(params: SessionParams, trace: seq<Occurrence>): nat
    requires Usable(params)
  {
    WindowStart(trace) + params.idle - (if Warned(trace) then 0 else params.warn)
  }

  /** What may come next, and when: nothing passes a deadline. */
  predicate Due(params: SessionParams, trace: seq<Occurrence>, o: Occurrence)
    requires Usable(params)
  {
    && LastTime(trace) <= o.at <= params.cap && o.at <= IdleDeadline(params, trace)
    && match o.what
       case WarningDue => !Warned(trace) && o.at == IdleDeadline(params, trace)
       case WarningUnheard => !Warned(trace) && o.at == IdleDeadline(params, trace)
       case IdleExpired => Warned(trace) && o.at == IdleDeadline(params, trace)
       case HardCapReached => o.at == params.cap
       case _ => true
  }

  predicate Timely(params: SessionParams, trace: seq<Occurrence>)
    requires Usable(params)
  {
    forall i :: 0 <= i < |trace| ==>
      Due(params, trace[..i], trace[i]) && (Final(trace[i].what) ==> i == |trace| - 1)
  }

  function Received(trace: seq<Occurrence>): seq<Signal> {
    if trace == [] then []
    else
      var o, rest := trace[|trace| - 1], Received(trace[..|trace| - 1]);
      if o.what == Activity || o.what == OwnerGone then rest + [Signal(o.at, o.what == OwnerGone)] else rest
  }

  // ---- the loop ------------------------------------------------------------------

  /** Between two turns: the first n signals are in, the others are not past. */
  predicate Running(params: SessionParams, signals: seq<Signal>, trace: seq<Occurrence>, n: nat)
    requires Usable(params)
  {
    && Timely(params, trace) && (forall i :: 0 <= i < |trace| ==> !Final(trace[i].what))
    && LastTime(trace) <= IdleDeadline(params, trace) && LastTime(trace) <= params.cap
    && Consumed(signals, trace, n)
  }

  predicate Consumed(signals: seq<Signal>, trace: seq<Occurrence>, n: nat) {
    && n <= |signals| && Received(trace) == signals[..n]
    && forall i :: n <= i < |signals| ==> signals[i].at >= LastTime(trace)
  }

  /** How one more occurrence is read. */
  lemma Reads(params: SessionParams, trace: seq<Occurrence>, o: Occurrence)
    requires Usable(params)
    ensures var longer := trace + [o];
      && LastTime(longer) == o.at
      && WindowStart(longer) == (if o.what == Activity then o.at else WindowStart(trace))
      && (Warned(longer) <==> o.what != Activity && (o.what == WarningDue || Warned(trace)))
      && Received(longer) == Received(trace)
           + if o.what == Activity || o.what == OwnerGone then [Signal(o.at, o.what == OwnerGone)] else []
  {
    assert (trace + [o])[..|trace|] == trace;
  }

  lemma Extend(params: SessionParams, trace: seq<Occurrence>, o: Occurrence)
    requires Usable(params) && Timely(params, trace) && Due(params, trace, o)
    requires forall i :: 0 <= i < |trace| ==> !Final(trace[i].what)
    ensures Timely(params, trace + [o])
  {
    var longer := trace + [o];
    assert longer[..|trace|] == trace;
    forall i | 0 <= i < |longer|
      ensures Due(params, longer[..i], longer[i]) && (Final(longer[i].what) ==> i == |longer| - 1)
    {
      if i < |trace| { assert longer[..i] == trace[..i]; }
    }
  }

  /** The next signal, or none of them, is taken at its time. */
  lemma Consume(signals: seq<Signal>, trace: seq<Occurrence>, n: nat, params: SessionParams, o: Occurrence)
    requires Usable(params) && InOrder(signals) && Consumed(signals, trace, n)
    requires n < |signals| ==> o.at <= signals[n].at
    requires o.what == Activity || o.what == OwnerGone ==>
               n < |signals| && signals[n] == Signal(o.at, o.what == OwnerGone)
    ensures Consumed(signals, trace + [o], if o.what == Activity || o.what == OwnerGone then n + 1 else n)
  {
    Reads(params, trace, o);
    if n < |signals| { assert signals[..n + 1] == signals[..n] + [signals[n]]; }
  }

  /** The variables of the loop agree with the trace. */
  predicate Holds(params: SessionParams, signals: seq<Signal>, trace: seq<Occurrence>, n: nat,
                  warned: bool, nextIdle: nat)
    requires Usable(params)
  {
    Running(params, signals, trace, n) && nextIdle == IdleDeadline(params, trace) && warned == Warned(trace)
  }

  lemma Turn(params: SessionParams, signals: seq<Signal>, trace: seq<Occurrence>, n: nat, warned: bool, nextIdle: nat,
             o: Occurrence, longer: seq<Occurrence>, m: nat)
    requires Usable(params) && InOrder(signals) && Holds(params, signals, trace, n, warned, nextIdle)
    requires Due(params, trace, o) && (n < |signals| ==> o.at <= signals[n].at) && longer == trace + [o]
    requires if o.what == Activity || o.what == OwnerGone
             then n < |signals| && signals[n] == Signal(o.at, o.what == OwnerGone) && m == n + 1
             else m == n
    ensures Timely(params, longer) && Consumed(signals, longer, m)
    ensures o.what == WarningDue ==> Holds(params, signals, longer, m, true, nextIdle + params.warn)
    ensures o.what == Activity ==> Holds(params, signals, longer, m, false, o.at + params.idle - params.warn)
  {
    Extend(params, trace, o);
    Consume(signals, trace, n, params, o);
    Reads(params, trace, o);
  }

  lemma WithinHardCap(params: SessionParams, trace: seq<Occurrence>)
    requires Usable(params) && Timely(params, trace)
    ensures forall i :: 0 <= i < |trace| ==> trace[i].at <= params.cap
  {
    forall i | 0 <= i < |trace| ensures trace[i].at <= params.cap {
      assert Due(params, trace[..i], trace[i]);
    }
  }

  predicate FromOwner(o: Occurrence) {
    o.what == Activity || o.what == OwnerGone
  }

  /** A warning was taken by the owner, or was not and so ended the watch. */
  predicate Heard(o: Occurrence, heard: nat -> bool) {
    (o.what == WarningDue ==> heard(o.at)) && (o.what == WarningUnheard ==> !heard(o.at))
  }

  /** The arm that is ready first; among several ready at once, any. */
  method Select(params: SessionParams, signals: seq<Signal>, n: nat, warned: bool, nextIdle: nat, heard: nat -> bool,
                ghost trace: seq<Occurrence>)
    returns (o: Occurrence)
    requires Usable(params) && Holds(params, signals, trace, n, warned, nextIdle)
    ensures Due(params, trace, o) && (n < |signals| ==> o.at <= signals[n].at)
    ensures FromOwner(o) ==> n < |signals| && signals[n] == Signal(o.at, o.what == OwnerGone)
    ensures Heard(o, heard)
  {
    var t := if nextIdle < params.cap then nextIdle else params.cap;
    if n < |signals| && signals[n].at < t { t := signals[n].at; }
    if
    case t == params.cap => o := At(t, HardCapReached);
    case t == nextIdle && !warned => o := At(t, if heard(t) then WarningDue else WarningUnheard);
    case t == nextIdle && warned => o := At(t, IdleExpired);
    case n < |signals| && signals[n].at == t => o := At(t, if signals[n].closed then OwnerGone else Activity);
  }

  /**
   One run of the watchdog. `heard` says whether the owner still takes events at a time. The
   cap is absolute: nothing happens after it, whatever activity came. Every signal before the
   end of the run was received, at its time.
   */
  method Watch(params: SessionParams, signals: seq<Signal>, heard: nat -> bool) returns (trace: seq<Occurrence>)
    requires Usable(params) && InOrder(signals)
    ensures Timely(params, trace) && trace != [] && Final(trace[|trace| - 1].what)
    ensures forall i :: 0 <= i < |trace| ==> trace[i].at <= params.cap
    ensures trace[|trace| - 1].what == HardCapReached ==> trace[|trace| - 1].at == params.cap
    ensures Consumed(signals, trace, |Received(trace)|)
    ensures forall i :: 0 <= i < |trace| ==> Heard(trace[i], heard)
    ensures (forall i :: 0 <= i < |signals| ==> !signals[i].closed) && (forall t: nat :: heard(t)) ==>
      trace[|trace| - 1].what == IdleExpired || trace[|trace| - 1].what == HardCapReached
  {
    trace := [];
    var nextIdle: nat := params.idle - params.warn;
    var warned := false;
    var n: nat := 0;
    while true
      invariant n <= |signals| && Holds(params, signals, trace, n, warned, nextIdle)
      invariant forall i :: 0 <= i < |trace| ==> Heard(trace[i], heard)
      decreases |signals| - n, if warned then 0 else 1
    {
      var o := Select(params, signals, n, warned, nextIdle, heard, trace);
      var longer, m := trace + [o], if FromOwner(o) then n + 1 else n;
      Turn(params, signals, trace, n, warned, nextIdle, o, longer, m);
      if Final(o.what) {
        WithinHardCap(params, longer);
        return longer;
      }
      if o.what == WarningDue {
        warned, nextIdle := true, nextIdle + params.warn;
      } else {
        warned, nextIdle := false, o.at + params.idle - params.warn;
      }
      trace, n := longer, m;
    }
  }

  // ---- what every run keeps ------------------------------------------------------

  /** Row j is the last activity before row n. */
  predicate LastActivityBefore(trace: seq<Occurrence>, j: nat, n: nat) {
    j < n <= |trace| && trace[j].what == Activity && forall k :: j < k < n ==> trace[k].what != Activity
  }

  /** The window of a trace starts at its last activity, or with the watchdog. */
  lemma {:induction false} WindowOf(trace: seq<Occurrence>, n: nat, j: nat)
    requires n <= |trace| && LastActivityBefore(trace, j, n)
    ensures WindowStart(trace[..n]) == trace[j].at
    decreases n
  {
    assert trace[..n][..n - 1] == trace[..n - 1];
    if j < n - 1 { WindowOf(trace, n - 1, j); }
  }

  lemma {:induction false} WindowOfQuiet(trace: seq<Occurrence>, n: nat)
    requires n <= |trace| && forall k :: 0 <= k < n ==> trace[k].what != Activity
    ensures WindowStart(trace[..n]) == 0
    decreases n
  {
    if n > 0 {
      assert trace[..n][..n - 1] == trace[..n - 1];
      WindowOfQuiet(trace, n - 1);
    }
  }

  /** The warning a window has had. */
  lemma {:induction false} WarningOf(params: SessionParams, trace: seq<Occurrence>, n: nat) returns (w: nat)
    requires Usable(params) && Timely(params, trace) && n <= |trace| && Warned(trace[..n])
    ensures w < n && trace[w].what == WarningDue && trace[w].at == WindowStart(trace[..n]) + params.idle - params.warn
    ensures forall k :: w < k < n ==> trace[k].what != Activity && trace[k].what != WarningDue
    ensures WindowStart(trace[..w]) == WindowStart(trace[..n]) && !Warned(trace[..w])
    decreases n
  {
    assert trace[..n][..n - 1] == trace[..n - 1];
    assert Due(params, trace[..n - 1], trace[n - 1]);
    if trace[n - 1].what == WarningDue { w := n - 1; } else { w := WarningOf(params, trace, n - 1); }
  }

  /**
   Idle expiry comes exactly one idle timeout after the last received activity, or after the
   start when there was none; the window had exactly one warning, `warn` before the expiry.
   */
  lemma IdleExpiryIsExact(params: SessionParams, trace: seq<Occurrence>, i: nat) returns (w: nat)
    requires Usable(params) && Timely(params, trace) && i < |trace| && trace[i].what == IdleExpired
    ensures forall j: nat :: LastActivityBefore(trace, j, i) ==> trace[i].at == trace[j].at + params.idle && j < w
    ensures (forall k :: 0 <= k < i ==> trace[k].what != Activity) ==> trace[i].at == params.idle
    ensures w < i && trace[w].what == WarningDue && trace[w].at + params.warn == trace[i].at
    ensures forall k :: 0 <= k < i && k != w && trace[k].what == WarningDue ==>
              exists j :: k < j < i && trace[j].what == Activity
  {
    assert Due(params, trace[..i], trace[i]);
    w := WarningOf(params, trace, i);
    forall j: nat | LastActivityBefore(trace, j, i) ensures trace[i].at == trace[j].at + params.idle && j < w {
      WindowOf(trace, i, j);
    }
    if forall k :: 0 <= k < i ==> trace[k].what != Activity { WindowOfQuiet(trace, i); }
    forall k | 0 <= k < i && k != w && trace[k].what == WarningDue
      ensures exists j :: k < j < i && trace[j].what == Activity
    {
      if forall j :: k < j < w ==> trace[j].what != Activity { StaysWarned(trace, k, w); }
    }
  }

  /** A warning stands until activity. */
  lemma {:induction false} StaysWarned(trace: seq<Occurrence>, k: nat, n: nat)
    requires k < n <= |trace| && trace[k].what == WarningDue && forall j :: k < j < n ==> trace[j].what != Activity
    ensures Warned(trace[..n])
    decreases n
  {
    assert trace[..n][..n - 1] == trace[..n - 1];
    if k < n - 1 { StaysWarned(trace, k, n - 1); }
  }

  /** Every warning comes `warn` before the end of its idle window, and nothing outlasts a window. */
  lemma WindowsAreKept(params: SessionParams, trace: seq<Occurrence>, i: nat)
    requires Usable(params) && Timely(params, trace) && i < |trace|
    ensures forall j: nat :: LastActivityBefore(trace, j, i) ==>
      && trace[i].at <= trace[j].at + params.idle
      && (trace[i].what == WarningDue ==> trace[i].at + params.warn == trace[j].at + params.idle)
    ensures (forall k :: 0 <= k < i ==> trace[k].what != Activity) ==>
      && trace[i].at <= params.idle && (trace[i].what == WarningDue ==> trace[i].at + params.warn == params.idle)
  {
    assert Due(params, trace[..i], trace[i]);
    forall j: nat | LastActivityBefore(trace, j, i) ensures WindowStart(trace[..i]) == trace[j].at {
      WindowOf(trace, i, j);
    }
    if forall k :: 0 <= k < i ==> trace[k].what != Activity { WindowOfQuiet(trace, i); }
  }
}
