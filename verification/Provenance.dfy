/**
 Where every row of the log and every request in flight comes from: which message, with
 which signature and decision, or which deadline, sweep or routed command.
 */
module Provenance {
  import opened Wrappers
  import opened Message
  import opened HashChain
  import opened Recovery
  import opened Trail
  import opened Router
  import opened RouterRuns
  import Json

  predicate Awaits(slot: Option<Parts>, stage: Stage, id: ReqId) {
    && slot.Some? && slot.value.inFlight.Some?
    && slot.value.inFlight.value.stage == stage && slot.value.inFlight.value.reqId == id
  }

  /** A signed answer of the phone to the approval request in flight, approving it or not. */
  predicate Decides(slot: Option<Parts>, input: Input, id: ReqId, approved: bool) {
    && input.Message? && input.m.Approval? && input.m.signed && input.m.approvalRsp.reqId == id
    && (input.m.approvalRsp.decision == Approved <==> approved) && Awaits(slot, AwaitApproval, id)
  }

  /** A signed result of the execution in flight. */
  predicate Reports(slot: Option<Parts>, input: Input, id: ReqId) {
    && input.Message? && input.m.Execution? && input.m.signed && input.m.executeRsp.reqId == id
    && Awaits(slot, AwaitExecute, id)
  }

  /** A request of the kind is started under the id: the one routed now, or the head of the queue. */
  predicate Begun(slot: Option<Parts>, input: Input, id: ReqId, authenticated: bool) {
    && slot.Some?
    && match input
       case Route(op, env) => slot.value.inFlight.None? && op.Authenticated? == authenticated && env.id == Some(id)
       case Message(_, _, drain) => Heads(slot.value, authenticated) && drain.id == Some(id)
       case Deadline(_, drain) => Heads(slot.value, authenticated) && drain.id == Some(id)
       case _ => false
  }

  predicate Heads(p: Parts, authenticated: bool) {
    p.queue != [] && p.queue[0].Authenticated? == authenticated
  }

  /** What alone can write a row of this type for this id. */
  predicate Cause(slot: Option<Parts>, input: Input, e: LogEvent) {
    if e.eventType == "approval_granted" || e.eventType == "execute_sent" then Decides(slot, input, e.reqId, true)
    else if e.eventType == "approval_denied" then Decides(slot, input, e.reqId, false)
    else if e.eventType == "execute_result" then Reports(slot, input, e.reqId)
    else if e.eventType == "request_timeout" then
      input.Deadline? && slot.Some? && slot.value.inFlight.Some? && slot.value.inFlight.value.reqId == e.reqId
    else if e.eventType == "approval_request" then Begun(slot, input, e.reqId, true)
    else e.eventType == "list_services_request" && Begun(slot, input, e.reqId, false)
  }

  // ---- steps -----------------------------------------------------------------------

  lemma StartRows(p: Parts, op: RoutedOp, env: Env, i: nat)
    requires i < |Start(p, op, env).1| && Start(p, op, env).1[i].reqId != LIFECYCLE_REQ_ID
    ensures Start(p, op, env).1[i].eventType
         == if op.Authenticated? then "approval_request" else "list_services_request"
    ensures env.id == Some(Start(p, op, env).1[i].reqId)
  {
  }

  lemma GrantRows(p: Parts, rsp: ApprovalResponse, f: InFlight, request: ApprovalRequest, env: Env, i: nat)
    requires i < |Grant(p, rsp, f, request, env).1|
    ensures var e := Grant(p, rsp, f, request, env).1[i];
      e.reqId == LIFECYCLE_REQ_ID
      || (e.reqId == request.fields.reqId && (e.eventType == "approval_granted" || e.eventType == "execute_sent"))
  {
  }

  lemma AnswerCause(p: Parts, m: Inbound, env: Env, drain: Env, f: InFlight, i: nat)
    requires p.inFlight == Some(f) && Answers(m, f)
    requires f.stage == AwaitApproval && f.approval.Some? ==> f.approval.value.fields.reqId == f.reqId
    requires i < |Answered(p.(inFlight := None), m, f, env).1|
    requires Answered(p.(inFlight := None), m, f, env).1[i].reqId != LIFECYCLE_REQ_ID
    ensures Cause(Some(p), Message(m, env, drain), Answered(p.(inFlight := None), m, f, env).1[i])
  {
    var q := p.(inFlight := None);
    if m.Approval? && m.signed && f.approval.Some? && m.approvalRsp.decision == Approved {
      GrantRows(q, m.approvalRsp, f, f.approval.value, env, i);
    }
  }

  lemma AnswerQueue(p: Parts, m: Inbound, f: InFlight, env: Env)
    ensures var (q, _, ended) := Answered(p, m, f, env); !ended ==> q.queue == p.queue
  {
  }

  lemma MessageCause(p: Parts, m: Inbound, env: Env, drain: Env, i: nat)
    requires p.inFlight.Some? && p.inFlight.value.stage == AwaitApproval && p.inFlight.value.approval.Some? ==>
               p.inFlight.value.approval.value.fields.reqId == p.inFlight.value.reqId
    requires i < |Handled(p, m, env, drain).1| && Handled(p, m, env, drain).1[i].reqId != LIFECYCLE_REQ_ID
    ensures Cause(Some(p), Message(m, env, drain), Handled(p, m, env, drain).1[i])
  {
    var f := p.inFlight.value;
    var q := p.(inFlight := None);
    var (q1, rows, ended) := Answered(q, m, f, env);
    AnswerQueue(q, m, f, env);
    if i < |rows| {
      AnswerCause(p, m, env, drain, f, i);
    } else {
      StartRows(q1.(queue := q1.queue[1..]), q1.queue[0], drain, i - |rows|);
    }
  }

  lemma TimeoutCause(p: Parts, env: Env, drain: Env, i: nat)
    requires i < |TimedOut(p, env, drain).1| && TimedOut(p, env, drain).1[i].reqId != LIFECYCLE_REQ_ID
    ensures Cause(Some(p), Deadline(env, drain), TimedOut(p, env, drain).1[i])
  {
    if i > 0 {
      var q := p.(inFlight := None);
      StartRows(q.(queue := q.queue[1..]), q.queue[0], drain, i - 1);
    }
  }

  lemma StepCause(events: seq<LogEvent>, slot: Option<Parts>, input: Input, i: nat)
    requires slot.Some? ==> Keeps(events, slot.value)
    requires i < |Step(slot, input).1| && Step(slot, input).1[i].reqId != LIFECYCLE_REQ_ID
    ensures Cause(slot, input, Step(slot, input).1[i])
  {
    match input
    case Route(op, env) => StartRows(slot.value, op, env, i);
    case Message(m, env, drain) => MessageCause(slot.value, m, env, drain, i);
    case Deadline(env, drain) => TimeoutCause(slot.value, env, drain, i);
    case _ =>
  }

  // ---- runs ------------------------------------------------------------------------

  lemma Grows(w: World, m: Move)
    ensures w.events <= Apply(w, m).events
  {
  }

  /** What a move of a run may write. */
  ghost predicate CausedBy(w: World, m: Move, e: LogEvent) {
    if m.Do? || m.Crash? then Cause(w.slot, m.input, e)
    else e.eventType == "request_timeout" && LastType(w.events, e.reqId) != "" && !Terminal(LastType(w.events, e.reqId))
  }

  lemma SweepCause(events: seq<LogEvent>, os: seq<Orphan>, now: I64, i: nat)
    requires i < |os| && (forall o :: o in os ==> o in Orphans(events)) && Disciplined(events)
    ensures var e := Closings(os, now)[i];
      e.eventType == "request_timeout" && LastType(events, e.reqId) != "" && !Terminal(LastType(events, e.reqId))
  {
    assert os[i] in os;
    OrphansFromIs(events, 0);
    var j := FindLast(events, os[i].reqId, os[i].index);
    FitsAt(events, j);
  }

  lemma MoveCause(w: World, m: Move, i: nat)
    requires Inv(w) && Legal(w, m) && |w.events| <= i < |Apply(w, m).events|
    requires Apply(w, m).events[i].reqId != LIFECYCLE_REQ_ID
    ensures CausedBy(w, m, Apply(w, m).events[i])
  {
    match m
    case Do(input) => StepCause(w.events, w.slot, input, i - |w.events|);
    case Crash(input, kept) => StepCause(w.events, w.slot, input, i - |w.events|);
    case Sweep(now) => SweepCause(w.events, Orphans(w.events), now, i - |w.events|);
    case BrokenSweep(now, kept) => SweepCause(w.events, Upto(Orphans(w.events), kept), now, i - |w.events|);
  }

  /** The request rows a move may write. */
  ghost function MayWrite(w: World, m: Move): iset<LogEvent> {
    iset e: LogEvent | CausedBy(w, m, e)
  }

  /** Move n wrote row i, and was of the kind that may. */
  ghost predicate WroteIt(moves: seq<Move>, n: nat, i: nat, e: LogEvent)
    requires n < |moves|
  {
    |After(moves, n).events| <= i < |After(moves, n + 1).events| && e in MayWrite(After(moves, n), moves[n])
  }

  lemma MoveWroteIt(moves: seq<Move>, n: nat, i: nat, e: LogEvent)
    requires Run(moves) && n < |moves| && |After(moves, n).events| <= i < |After(moves, n + 1).events|
    requires e == After(moves, n + 1).events[i] && e.reqId != LIFECYCLE_REQ_ID
    ensures WroteIt(moves, n, i, e)
  {
    RunKeeps(moves, n);
    MoveCause(After(moves, n), moves[n], i);
  }

  lemma RowStands(moves: seq<Move>, m: nat, i: nat)
    requires 0 < m <= |moves| && i < |After(moves, m - 1).events|
    ensures i < |After(moves, m).events| && After(moves, m - 1).events[i] == After(moves, m).events[i]
  {
    Grows(After(moves, m - 1), moves[m - 1]);
  }

  /** The move during which row i of a log was written. */
  lemma {:induction false} WrittenBy(moves: seq<Move>, m: nat, i: nat, e: LogEvent) returns (n: nat)
    requires m <= |moves| && i < |After(moves, m).events| && e == After(moves, m).events[i]
    ensures n < m && |After(moves, n).events| <= i < |After(moves, n + 1).events|
    ensures e == After(moves, n + 1).events[i]
    decreases m
  {
    if i < |After(moves, m - 1).events| {
      RowStands(moves, m, i);
      n := WrittenBy(moves, m - 1, i, e);
    } else {
      n := m - 1;
    }
  }

  /**
   In every run each row of a request was written by what alone may write it: a grant and a
   sending by a signed approval for the id then in flight, a denial by a signed refusal, a
   result by a signed result, a timeout by a deadline or a sweep, a request by its start.
   */
  lemma RowHasCause(moves: seq<Move>, i: nat, e: LogEvent) returns (n: nat)
    requires Run(moves) && i < |After(moves, |moves|).events|
    requires e == After(moves, |moves|).events[i] && e.reqId != LIFECYCLE_REQ_ID
    ensures n < |moves| && WroteIt(moves, n, i, e)
  {
    n := WrittenBy(moves, |moves|, i, e);
    MoveWroteIt(moves, n, i, e);
  }

  /** In every run an approval row goes back to a signed message of the phone that approves the id. */
  lemma GrantsAreSigned(moves: seq<Move>, i: nat) returns (n: nat)
    requires Run(moves) && i < |After(moves, |moves|).events|
    requires var e := After(moves, |moves|).events[i];
      e.reqId != LIFECYCLE_REQ_ID && (e.eventType == "approval_granted" || e.eventType == "execute_sent")
    ensures n < |moves| && (moves[n].Do? || moves[n].Crash?) && moves[n].input.Message?
    ensures var m := moves[n].input.m;
      m.Approval? && m.signed && m.approvalRsp.decision == Approved
      && m.approvalRsp.reqId == After(moves, |moves|).events[i].reqId
  {
    n := RowHasCause(moves, i, After(moves, |moves|).events[i]);
  }

  // ---- exactly when a message writes -------------------------------------------------

  predicate Writes(rows: seq<LogEvent>, eventType: string) {
    exists i :: 0 <= i < |rows| && rows[i].eventType == eventType
  }

  predicate Lifecycle(eventType: string) {
    eventType == "session_end" || eventType == "daemon_note"
  }

  /** Rows of the reserved id are about the session. */
  lemma LifecycleRows(events: seq<LogEvent>, p: Parts, m: Inbound, f: InFlight, env: Env, i: nat)
    requires FlightOk(events, f) && Answers(m, f) && i < |Answered(p, m, f, env).1|
    requires Answered(p, m, f, env).1[i].reqId == LIFECYCLE_REQ_ID
    ensures Lifecycle(Answered(p, m, f, env).1[i].eventType)
  {
    if m.Approval? && m.signed && m.approvalRsp.decision == Approved {
      GrantLifecycle(p, m.approvalRsp, f, f.approval.value, env, i);
    }
  }

  lemma GrantLifecycle(p: Parts, rsp: ApprovalResponse, f: InFlight, request: ApprovalRequest, env: Env, i: nat)
    requires request.fields.reqId != LIFECYCLE_REQ_ID && i < |Grant(p, rsp, f, request, env).1|
    requires Grant(p, rsp, f, request, env).1[i].reqId == LIFECYCLE_REQ_ID
    ensures Lifecycle(Grant(p, rsp, f, request, env).1[i].eventType)
  {
  }

  lemma DrainTypes(p: Parts, env: Env, i: nat)
    requires i < |Drain(p, env).1|
    ensures var t := Drain(p, env).1[i].eventType;
      t == "approval_request" || t == "list_services_request" || t == "session_end"
  {
  }

  /** Rows that record a decision or a result have their cause. */
  predicate Decisive(eventType: string) {
    || eventType == "approval_granted" || eventType == "execute_sent"
    || eventType == "approval_denied" || eventType == "execute_result"
  }

  lemma DecisiveCause(events: seq<LogEvent>, p: Parts, m: Inbound, env: Env, drain: Env, i: nat)
    requires Keeps(events, p) && i < |Handled(p, m, env, drain).1| && Decisive(Handled(p, m, env, drain).1[i].eventType)
    ensures Cause(Some(p), Message(m, env, drain), Handled(p, m, env, drain).1[i])
  {
    assert p.inFlight.Some? && Answers(m, p.inFlight.value);
    var f, q := p.inFlight.value, p.(inFlight := None);
    var (q1, rows, ended) := Answered(q, m, f, env);
    if i >= |rows| {
      DrainTypes(q1, drain, i - |rows|);
    } else if rows[i].reqId == LIFECYCLE_REQ_ID {
      LifecycleRows(events, q, m, f, env, i);
    } else {
      AnswerCause(p, m, env, drain, f, i);
    }
  }

  /** A grant and a sending are logged if and only if the message is a signed approval for the id in flight. */
  lemma GrantLoggedIff(events: seq<LogEvent>, p: Parts, m: Inbound, env: Env, drain: Env)
    requires Keeps(events, p) && Prompt(env)
    ensures Writes(Handled(p, m, env, drain).1, "approval_granted") <==>
      m.Approval? && Decides(Some(p), Message(m, env, drain), m.approvalRsp.reqId, true)
    ensures Writes(Handled(p, m, env, drain).1, "execute_sent") <==>
      m.Approval? && Decides(Some(p), Message(m, env, drain), m.approvalRsp.reqId, true)
  {
    var rows := Handled(p, m, env, drain).1;
    forall i | 0 <= i < |rows| && (rows[i].eventType == "approval_granted" || rows[i].eventType == "execute_sent")
      ensures m.Approval? && Decides(Some(p), Message(m, env, drain), m.approvalRsp.reqId, true)
    {
      DecisiveCause(events, p, m, env, drain, i);
    }
    if m.Approval? && Decides(Some(p), Message(m, env, drain), m.approvalRsp.reqId, true) {
      GrantWrites(events, p, m.approvalRsp, env, drain);
    }
  }

  lemma GrantWrites(events: seq<LogEvent>, p: Parts, rsp: ApprovalResponse, env: Env, drain: Env)
    requires Keeps(events, p) && Prompt(env)
    requires Decides(Some(p), Message(Approval(rsp, true), env, drain), rsp.reqId, true)
    ensures var rows := Handled(p, Approval(rsp, true), env, drain).1;
      |rows| >= 2 && rows[0].eventType == "approval_granted" && rows[1].eventType == "execute_sent"
  {
    var b := GrantSucceeds(events, p.(inFlight := None), rsp, p.inFlight.value, env);
  }

  /** A denial is logged if and only if the message is a signed response, not approving, for the id in flight. */
  lemma DenialLoggedIff(events: seq<LogEvent>, p: Parts, m: Inbound, env: Env, drain: Env)
    requires Keeps(events, p)
    ensures Writes(Handled(p, m, env, drain).1, "approval_denied") <==>
      m.Approval? && Decides(Some(p), Message(m, env, drain), m.approvalRsp.reqId, false)
  {
    var rows := Handled(p, m, env, drain).1;
    forall i | 0 <= i < |rows| && rows[i].eventType == "approval_denied"
      ensures m.Approval? && Decides(Some(p), Message(m, env, drain), m.approvalRsp.reqId, false)
    {
      DecisiveCause(events, p, m, env, drain, i);
    }
    if m.Approval? && Decides(Some(p), Message(m, env, drain), m.approvalRsp.reqId, false) {
      assert rows[0].eventType == "approval_denied";
    }
  }

  /** An unsigned answer is trusted in nothing: the tracker is as it was, and only a note is written. */
  lemma UnsignedIsOnlyNoted(events: seq<LogEvent>, p: Parts, m: Inbound, env: Env)
    requires Keeps(events, p) && p.inFlight.Some? && Answers(m, p.inFlight.value)
    requires (m.Approval? || m.Execution?) && !m.signed
    ensures var (q, rows, ended) := Answered(p.(inFlight := None), m, p.inFlight.value, env);
      && q == p.(inFlight := None) && q.binding == p.binding && !ended
      && |rows| == 1 && rows[0].reqId == LIFECYCLE_REQ_ID && rows[0].eventType == "daemon_note"
  {
  }

  // ---- what is in flight was routed ----------------------------------------------------

  ghost predicate RoutedBy(moves: seq<Move>, n: nat, op: RoutedOp) {
    exists k :: 0 <= k < n && k < |moves| && moves[k].Do? && moves[k].input.Route? && moves[k].input.op == op
  }

  /** The request asks for just what was routed. */
  predicate AsksFor(request: ApprovalRequest, op: RoutedOp) {
    && op.Authenticated? && request.fields.opType == AuthenticatedRequest
    && request.fields.service == op.service && request.fields.verb == op.verb && request.fields.endpoint == op.endpoint
    && request.fields.params == op.params && request.fields.requestedBy == op.requestedBy
  }

  ghost predicate FlightRouted(moves: seq<Move>, n: nat, f: InFlight) {
    f.stage == AwaitApproval ==>
      f.approval.Some? && exists op :: RoutedBy(moves, n, op) && AsksFor(f.approval.value, op)
  }

  /** All that waits was routed, at most eight, and what the phone is asked is what was routed. */
  ghost predicate PartsRouted(moves: seq<Move>, n: nat, p: Parts) {
    && |p.queue| <= 8 && (forall i :: 0 <= i < |p.queue| ==> RoutedBy(moves, n, p.queue[i]))
    && (p.inFlight.Some? ==> FlightRouted(moves, n, p.inFlight.value))
  }

  lemma StillRouted(moves: seq<Move>, n: nat, p: Parts)
    requires PartsRouted(moves, n, p)
    ensures PartsRouted(moves, n + 1, p)
  {
  }

  lemma StartRouted(moves: seq<Move>, n: nat, p: Parts, op: RoutedOp, env: Env)
    requires PartsRouted(moves, n, p) && RoutedBy(moves, n, op)
    ensures PartsRouted(moves, n, Start(p, op, env).0)
  {
    if env.id.Some? && op.Authenticated? { assert AsksFor(Asked(op, env.id.value, env.timestamp), op); }
  }

  lemma DrainRouted(moves: seq<Move>, n: nat, p: Parts, env: Env)
    requires PartsRouted(moves, n, p)
    ensures PartsRouted(moves, n, Drain(p, env).0)
  {
    if p.queue != [] { StartRouted(moves, n, p.(queue := p.queue[1..]), p.queue[0], env); }
  }

  lemma AnswerRouted(moves: seq<Move>, n: nat, p: Parts, m: Inbound, f: InFlight, env: Env)
    requires PartsRouted(moves, n, p) && p.inFlight.None?
    ensures PartsRouted(moves, n, Answered(p, m, f, env).0)
  {
  }

  lemma MessageRouted(moves: seq<Move>, n: nat, p: Parts, m: Inbound, env: Env, drain: Env)
    requires PartsRouted(moves, n, p)
    ensures PartsRouted(moves, n, Handled(p, m, env, drain).0)
  {
    if p.inFlight.Some? && Answers(m, p.inFlight.value) {
      AnswerRouted(moves, n, p.(inFlight := None), m, p.inFlight.value, env);
      DrainRouted(moves, n, Answered(p.(inFlight := None), m, p.inFlight.value, env).0, drain);
    }
  }

  lemma StepRouted(moves: seq<Move>, n: nat, slot: Option<Parts>)
    requires n < |moves| && moves[n].Do? && (slot.Some? ==> PartsRouted(moves, n, slot.value))
    ensures var after := Step(slot, moves[n].input).0; after.Some? ==> PartsRouted(moves, n + 1, after.value)
  {
    if slot.Some? {
      StillRouted(moves, n, slot.value);
      match moves[n].input
      case Route(op, env) =>
        assert RoutedBy(moves, n + 1, op);
        StartRouted(moves, n + 1, slot.value, op, env);
      case Message(m, env, drain) => MessageRouted(moves, n + 1, slot.value, m, env, drain);
      case Deadline(env, drain) =>
        if slot.value.inFlight.Some? { DrainRouted(moves, n + 1, slot.value.(inFlight := None), drain); }
      case _ =>
    }
  }

  /** What a session may hold after n moves. */
  ghost function Holdable(moves: seq<Move>, n: nat): iset<Option<Parts>> {
    iset slot: Option<Parts> | slot.Some? ==> PartsRouted(moves, n, slot.value)
  }

  lemma MoveRouted(moves: seq<Move>, n: nat, w: World, w': World)
    requires n < |moves| && w.slot in Holdable(moves, n) && w' == Apply(w, moves[n])
    ensures w'.slot in Holdable(moves, n + 1)
  {
    if moves[n].Do? { StepRouted(moves, n, w.slot); }
  }

  /** In every run the phone is asked for just the operation that was routed, and at most eight wait. */
  lemma {:induction false} AskedIsRouted(moves: seq<Move>, n: nat)
    requires n <= |moves|
    ensures After(moves, n).slot in Holdable(moves, n)
    decreases n
  {
    if n > 0 {
      AskedIsRouted(moves, n - 1);
      MoveRouted(moves, n - 1, After(moves, n - 1), After(moves, n));
    }
  }

  /** In every run what is in flight and what waits is what was routed, at most eight waiting. */
  lemma WhatIsAsked(moves: seq<Move>, n: nat, p: Parts)
    requires n <= |moves| && After(moves, n).slot == Some(p)
    ensures |p.queue| <= 8 && forall i :: 0 <= i < |p.queue| ==> RoutedBy(moves, n, p.queue[i])
    ensures p.inFlight.Some? && p.inFlight.value.stage == AwaitApproval ==>
      && p.inFlight.value.approval.Some?
      && exists op :: RoutedBy(moves, n, op) && AsksFor(p.inFlight.value.approval.value, op)
  {
    AskedIsRouted(moves, n);
    assert Some(p) in Holdable(moves, n);
    assert PartsRouted(moves, n, p);
  }

  // ---- what each handler leaves --------------------------------------------------------

  /** The request is in flight if and only if it drew an id, is in the domain, and was encoded and sent. */
  lemma StartOutcome(p: Parts, op: RoutedOp, env: Env)
    ensures var (q, rows) := Start(p, op, env);
      var drawn := env.id.Some? && (op.Authenticated? ==> Json.InDomain(op.params));
      && (rows == [] <==> !drawn) && q.binding == p.binding
      && (drawn && env.encodes && env.sends ==>
           && |rows| == 1 && q.queue == p.queue && q.inFlight.Some? && q.inFlight.value.reqId == env.id.value
           && q.inFlight.value.stage == (if op.Authenticated? then AwaitApproval else AwaitServices))
      && (drawn && env.encodes && !env.sends ==>
           |rows| == 2 && rows[1].eventType == "session_end" && q.inFlight.None? && q.queue == [])
      && (!drawn || !env.encodes ==> q == p && |rows| <= 1)
  {
  }

  /** While a request is in flight a command waits behind the others, unless eight do; then nothing changes. */
  lemma RouteOutcome(p: Parts, op: RoutedOp, env: Env)
    requires p.inFlight.Some?
    ensures var (q, rows) := Routed(p, op, env);
      && rows == [] && q.inFlight == p.inFlight && q.binding == p.binding
      && q.queue == if |p.queue| < 8 then p.queue + [op] else p.queue
  {
  }

  /** A message that answers nothing ends the session, is passed over or is noted, and touches nothing else. */
  lemma OtherwiseOutcome(p: Parts, m: Inbound, env: Env, drain: Env)
    requires p.inFlight.None? || !Answers(m, p.inFlight.value)
    ensures var (q, rows, ended) := Handled(p, m, env, drain);
      && q.binding == p.binding && |rows| <= 1 && (forall i :: 0 <= i < |rows| ==> rows[i].reqId == LIFECYCLE_REQ_ID)
      && (ended <==> m.Farewell? || m.Undecodable? || (m.Ping? && !(env.encodes && env.sends)))
      && (ended ==> q.inFlight.None? && q.queue == [] && |rows| == 1 && rows[0].eventType == "session_end")
      && (!ended ==> q == p && (rows == [] <==> m.Ping?) && (rows != [] ==> rows[0].eventType == "daemon_note"))
  {
  }
}
