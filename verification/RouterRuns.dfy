/**
 Every run of the daemon: handler steps, crashes at any row, and startup sweeps that may
 themselves crash. The log keeps its discipline throughout.
 */
module RouterRuns {
  import opened Wrappers
  import opened Message
  import opened HashChain
  import opened Recovery
  import opened Trail
  import opened Router
  import Binding
  import Hex
  import Json

  // ---- steps and runs ------------------------------------------------------------

  /** Starting a session may fail before or after its row is written. */
  datatype Input =
    | Open(env: Env, connected: bool, usable: bool)
    | Route(op: RoutedOp, env: Env)
    | Message(m: Inbound, env: Env, drain: Env)
    | Deadline(env: Env, drain: Env)
    | End(env: Env)

  const NEW_PARTS := Parts(Binding.State(Binding.DEFAULT_APPROVAL_TTL, map[], map[]), None, [])

  ghost function OnMessage(p: Parts, m: Inbound, env: Env, drain: Env): (Option<Parts>, seq<LogEvent>) {
    var r := Handled(p, m, env, drain);
    (if r.2 then None else Some(r.0), r.1)
  }

  ghost function Step(slot: Option<Parts>, input: Input): (Option<Parts>, seq<LogEvent>) {
    if slot.None? then
      if input.Open? && input.connected then
        (if input.usable then Some(NEW_PARTS) else None, [Row(input.env, LIFECYCLE_REQ_ID, "session_start")])
      else (None, [])
    else match input
      case Open(_, _, _) => (slot, [])
      case Route(op, env) => var (p, rows) := Routed(slot.value, op, env); (Some(p), rows)
      case Message(m, env, drain) => OnMessage(slot.value, m, env, drain)
      case Deadline(env, drain) => var (p, rows) := TimedOut(slot.value, env, drain); (Some(p), rows)
      case End(env) => (None, [Row(env, LIFECYCLE_REQ_ID, "session_end")])
  }

  /** The durable log, whether the daemon is up, and the session it holds in memory. */
  datatype World = World(events: seq<LogEvent>, up: bool, slot: Option<Parts>)

  datatype Move =
    | Do(input: Input)
    | Crash(input: Input, kept: nat)
    | Sweep(now: I64)
    | BrokenSweep(now: I64, kept: nat)

  function Upto<T>(s: seq<T>, n: nat): seq<T> {
    if n < |s| then s[..n] else s
  }

  ghost function Apply(w: World, m: Move): World {
    match m
    case Do(input) => var (slot, rows) := Step(w.slot, input); World(w.events + rows, true, slot)
    case Crash(input, kept) => World(w.events + Upto(Step(w.slot, input).1, kept), false, None)
    case Sweep(now) => World(w.events + Closings(Orphans(w.events), now), true, None)
    case BrokenSweep(now, kept) => World(w.events + Closings(Upto(Orphans(w.events), kept), now), false, None)
  }

  /** A generated id is new to the log and is not the reserved one. */
  predicate Fresh(env: Env, events: seq<LogEvent>) {
    env.id.Some? ==>
      env.id.value != LIFECYCLE_REQ_ID && forall i :: 0 <= i < |events| ==> events[i].reqId != env.id.value
  }

  /** The tracker's two calls of one handler are in order and within the TTL of each other. */
  predicate Prompt(env: Env) {
    env.recordAt <= env.executeAt <= env.recordAt + Binding.DEFAULT_APPROVAL_TTL
  }

  predicate InputOk(input: Input, events: seq<LogEvent>) {
    match input
    case Route(_, env) => Fresh(env, events)
    case Message(_, env, drain) => Fresh(drain, events) && Prompt(env)
    case Deadline(_, drain) => Fresh(drain, events)
    case _ => true
  }

  /** The daemon sweeps before it does anything else. */
  predicate Legal(w: World, m: Move) {
    match m
    case Do(input) => w.up && InputOk(input, w.events)
    case Crash(input, _) => w.up && InputOk(input, w.events)
    case _ => !w.up
  }

  const INSTALLED := World([], false, None)

  ghost function After(moves: seq<Move>, n: nat): World
    requires n <= |moves|
  {
    if n == 0 then INSTALLED else Apply(After(moves, n - 1), moves[n - 1])
  }

  ghost predicate Run(moves: seq<Move>) {
    forall i :: 0 <= i < |moves| ==> Legal(After(moves, i), moves[i])
  }

  // ---- the invariant -------------------------------------------------------------

  ghost predicate Holds(b: Binding.State, id: ReqId) {
    Hex.Text(id) in b.pending || Hex.Text(id) in b.consumed
  }

  predicate Spent(t: string) {
    t == "execute_sent" || t == "execute_result" || t == "request_timeout"
  }

  /** The tracker knows only ids whose execution was sent. */
  ghost predicate TrackerOk(events: seq<LogEvent>, b: Binding.State) {
    && b.ttl == Binding.DEFAULT_APPROVAL_TTL
    && forall id: ReqId :: Holds(b, id) ==> id != LIFECYCLE_REQ_ID && Spent(LastType(events, id))
  }

  function StageType(stage: Stage): string {
    match stage
    case AwaitApproval => "approval_request"
    case AwaitExecute => "execute_sent"
    case AwaitServices => "list_services_request"
  }

  predicate FlightOk(events: seq<LogEvent>, f: InFlight) {
    && f.reqId != LIFECYCLE_REQ_ID && LastType(events, f.reqId) == StageType(f.stage)
    && (f.stage == AwaitApproval ==>
         && f.approval.Some? && f.approval.value.fields.reqId == f.reqId
         && f.approval.value.fields.opType == AuthenticatedRequest && Json.InDomain(f.approval.value.fields.params))
  }

  ghost predicate NoneGranted(events: seq<LogEvent>) {
    forall id: ReqId :: id != LIFECYCLE_REQ_ID ==> LastType(events, id) != "approval_granted"
  }

  ghost predicate Keeps(events: seq<LogEvent>, p: Parts) {
    && Disciplined(events) && NoneGranted(events) && TrackerOk(events, p.binding)
    && (p.inFlight.Some? ==> FlightOk(events, p.inFlight.value))
  }

  ghost predicate Inv(w: World) {
    && Disciplined(w.events)
    && (w.up ==> NoneGranted(w.events))
    && (w.up && w.slot.Some? ==> Keeps(w.events, w.slot.value))
  }

  // ---- one row at a time ---------------------------------------------------------

  /** A row that fits, is not a bare grant and is not for the id in flight changes nothing held. */
  lemma AddKeeps(events: seq<LogEvent>, p: Parts, e: LogEvent)
    requires Keeps(events, p) && RowFits(events, e)
    requires e.reqId != LIFECYCLE_REQ_ID ==> e.eventType != "approval_granted"
    requires p.inFlight.Some? ==> p.inFlight.value.reqId != e.reqId
    ensures Keeps(events + [e], p)
  {
    AddRow(events, e);
    forall id: ReqId ensures LastType(events + [e], id) == if e.reqId == id then e.eventType else LastType(events, id) {
      LastTypeAppend(events, e, id);
    }
  }

  lemma AddLifecycle(events: seq<LogEvent>, p: Parts, e: LogEvent)
    requires Keeps(events, p) && e.reqId == LIFECYCLE_REQ_ID
    ensures Keeps(events + [e], p)
  {
    AddKeeps(events, p, e);
  }

  /** Grant and send of one id, written together. */
  lemma AddGrant(events: seq<LogEvent>, p: Parts, b: Binding.State, granted: LogEvent, sent: LogEvent)
    requires Keeps(events, p) && p.inFlight.None? && b.ttl == p.binding.ttl
    requires granted.reqId == sent.reqId != LIFECYCLE_REQ_ID && LastType(events, sent.reqId) == "approval_request"
    requires granted.eventType == "approval_granted" && sent.eventType == "execute_sent"
    requires forall id: ReqId :: Holds(b, id) ==> Holds(p.binding, id) || id == sent.reqId
    ensures Keeps(events + [granted, sent], p.(binding := b))
    ensures LastType(events + [granted, sent], sent.reqId) == "execute_sent"
  {
    GrantFits(events, granted, sent);
    forall id: ReqId
      ensures LastType(events + [granted, sent], id)
           == if sent.reqId == id then "execute_sent" else LastType(events, id)
    {
      TypeBehindTwo(events, granted, sent, id);
    }
  }

  lemma TypeBehindTwo(events: seq<LogEvent>, d: LogEvent, e: LogEvent, id: ReqId)
    requires d.reqId == e.reqId
    ensures LastType(events + [d, e], id) == if e.reqId == id then e.eventType else LastType(events, id)
  {
    assert events + [d, e] == events + [d] + [e];
    LastTypeAppend(events, d, id);
    LastTypeAppend(events + [d], e, id);
  }

  lemma GrantFits(events: seq<LogEvent>, granted: LogEvent, sent: LogEvent)
    requires Disciplined(events) && granted.reqId == sent.reqId && LastType(events, sent.reqId) == "approval_request"
    requires granted.eventType == "approval_granted" && sent.eventType == "execute_sent"
    ensures Disciplined(events + [granted, sent])
  {
    assert events + [granted, sent] == events + [granted] + [sent];
    LastTypeAppend(events, granted, sent.reqId);
    AddRow(events, granted);
    AddRow(events + [granted], sent);
  }

  // ---- handlers ------------------------------------------------------------------

  /** An id in flight has a row. */
  lemma FlightHasRow(events: seq<LogEvent>, f: InFlight, id: ReqId)
    requires FlightOk(events, f) && forall i :: 0 <= i < |events| ==> events[i].reqId != id
    ensures f.reqId != id
  {
    var i := Known(events, f.reqId);
  }

  /** The first row of a new id leaves everything held in place. */
  lemma NewIdKeeps(events: seq<LogEvent>, p: Parts, row: LogEvent)
    requires Keeps(events, p) && row.reqId != LIFECYCLE_REQ_ID && Follows("", row.eventType)
    requires forall i :: 0 <= i < |events| ==> events[i].reqId != row.reqId
    ensures Keeps(events + [row], p)
  {
    Unknown(events, row.reqId);
    if p.inFlight.Some? { FlightHasRow(events, p.inFlight.value, row.reqId); }
    AddKeeps(events, p, row);
  }

  lemma Installed(events: seq<LogEvent>, p: Parts, f: InFlight)
    requires Keeps(events, p) && FlightOk(events, f)
    ensures Keeps(events, p.(inFlight := Some(f)))
  {
  }

  lemma TornKeeps(events: seq<LogEvent>, p: Parts, e: LogEvent)
    requires Keeps(events, p) && e.reqId == LIFECYCLE_REQ_ID
    ensures Keeps(events + [e], Torn(p))
  {
    AddLifecycle(events, Torn(p), e);
  }

  lemma StartTorn(events: seq<LogEvent>, p: Parts, row: LogEvent, end: LogEvent)
    requires Keeps(events + [row], p) && end.reqId == LIFECYCLE_REQ_ID
    ensures Keeps(events + [row, end], Torn(p))
  {
    TornKeeps(events + [row], p, end);
    assert events + [row] + [end] == events + [row, end];
  }

  lemma StartKeeps(events: seq<LogEvent>, p: Parts, op: RoutedOp, env: Env)
    requires Keeps(events, p) && Fresh(env, events)
    ensures Keeps(events + Start(p, op, env).1, Start(p, op, env).0)
  {
    if env.id.None? || (op.Authenticated? && !Json.InDomain(op.params)) {
      assert events + [] == events;
    } else {
      var row := Row(env, env.id.value, RequestType(op));
      NewIdKeeps(events, p, row);
      if env.encodes && !env.sends {
        StartTorn(events, p, row, Row(env, LIFECYCLE_REQ_ID, "session_end"));
      } else if env.encodes {
        FlightStarts(events, op, env);
        Installed(events + [row], p, Flight(op, env.id.value, env.timestamp));
      }
    }
  }

  lemma FlightStarts(events: seq<LogEvent>, op: RoutedOp, env: Env)
    requires env.id.Some? && env.id.value != LIFECYCLE_REQ_ID && (op.Authenticated? ==> Json.InDomain(op.params))
    ensures FlightOk(events + [Row(env, env.id.value, RequestType(op))], Flight(op, env.id.value, env.timestamp))
  {
    LastTypeAppend(events, Row(env, env.id.value, RequestType(op)), env.id.value);
  }

  lemma DrainKeeps(events: seq<LogEvent>, p: Parts, env: Env)
    requires Keeps(events, p) && Fresh(env, events)
    ensures Keeps(events + Drain(p, env).1, Drain(p, env).0)
  {
    if p.queue == [] {
      assert events + [] == events;
    } else {
      StartKeeps(events, p.(queue := p.queue[1..]), p.queue[0], env);
    }
  }

  /** Once the grant is logged the tracker lets the execution through. */
  lemma GrantSucceeds(events: seq<LogEvent>, p: Parts, rsp: ApprovalResponse, f: InFlight, env: Env)
    returns (b: Binding.State)
    requires Keeps(events, p) && FlightOk(events, f) && f.stage == AwaitApproval
    requires rsp.reqId == f.reqId && rsp.decision == Approved && Prompt(env)
    ensures Grant(p, rsp, f, f.approval.value, env) ==
            Send(p.(binding := b), f, [Row(env, f.reqId, "approval_granted"), Row(env, f.reqId, "execute_sent")], env)
    ensures b.ttl == p.binding.ttl && forall id: ReqId :: Holds(b, id) ==> Holds(p.binding, id) || id == f.reqId
  {
    var request := f.approval.value;
    var b1 := Binding.Record(p.binding, request, rsp, env.recordAt).0;
    assert !Holds(p.binding, f.reqId);
    BindingDetermines(request, ExecuteRequest(request.fields));
    b := Binding.Execute(b1, ExecuteRequest(request.fields), env.executeAt).0;
    forall id: ReqId | Holds(b, id) ensures Holds(p.binding, id) || id == f.reqId {
      if Hex.Text(id) == Hex.Text(f.reqId) { Hex.TextInjective(id, f.reqId); }
    }
  }

  lemma SendKeeps(events: seq<LogEvent>, p: Parts, f: InFlight, env: Env, d: LogEvent, e: LogEvent)
    requires Keeps(events + [d, e], p) && p.inFlight.None?
    requires f.reqId != LIFECYCLE_REQ_ID && LastType(events + [d, e], f.reqId) == "execute_sent"
    ensures Keeps(events + Send(p, f, [d, e], env).1, Send(p, f, [d, e], env).0)
  {
    if env.encodes && !env.sends {
      var end := Row(env, LIFECYCLE_REQ_ID, "session_end");
      TornKeeps(events + [d, e], p, end);
      Associate(events, [d, e], [end]);
    } else if env.encodes {
      Installed(events + [d, e], p, InFlight(AwaitExecute, f.reqId, None));
    }
  }

  lemma ApprovalKeeps(events: seq<LogEvent>, p: Parts, rsp: ApprovalResponse, signed: bool, f: InFlight, env: Env)
    requires Keeps(events, p) && p.inFlight.None? && FlightOk(events, f) && f.stage == AwaitApproval
    requires rsp.reqId == f.reqId && Prompt(env)
    ensures var (q, rows, _) := FinishedApproval(p, rsp, signed, f, env); Keeps(events + rows, q)
  {
    if !signed {
      AddLifecycle(events, p, Row(env, LIFECYCLE_REQ_ID, "daemon_note"));
    } else if rsp.decision != Approved {
      AddKeeps(events, p, Row(env, f.reqId, "approval_denied"));
    } else {
      var granted, sent := Row(env, f.reqId, "approval_granted"), Row(env, f.reqId, "execute_sent");
      var b := GrantSucceeds(events, p, rsp, f, env);
      AddGrant(events, p, b, granted, sent);
      SendKeeps(events, p.(binding := b), f, env, granted, sent);
    }
  }

  lemma AnswerKeeps(events: seq<LogEvent>, p: Parts, m: Inbound, f: InFlight, env: Env)
    requires Keeps(events, p) && p.inFlight.None? && FlightOk(events, f) && Answers(m, f) && Prompt(env)
    ensures var (q, rows, _) := Answered(p, m, f, env); Keeps(events + rows, q)
  {
    match m
    case Approval(rsp, signed) => ApprovalKeeps(events, p, rsp, signed, f, env);
    case Execution(rsp, signed) =>
      if signed {
        AddKeeps(events, p, Row(env, rsp.reqId, "execute_result"));
      } else {
        AddLifecycle(events, p, Row(env, LIFECYCLE_REQ_ID, "daemon_note"));
      }
    case ServiceList(_) => assert events + [] == events;
    case _ =>
  }

  /** The rows an answer writes are for the id in flight or for none. */
  lemma AnswerRows(p: Parts, m: Inbound, f: InFlight, env: Env, i: nat)
    requires Answers(m, f)
    requires f.stage == AwaitApproval && f.approval.Some? ==> f.approval.value.fields.reqId == f.reqId
    requires i < |Answered(p, m, f, env).1|
    ensures var e := Answered(p, m, f, env).1[i]; e.reqId == f.reqId || e.reqId == LIFECYCLE_REQ_ID
  {
  }

  lemma StillFresh(events: seq<LogEvent>, rows: seq<LogEvent>, id: ReqId, env: Env)
    requires Fresh(env, events) && LastType(events, id) != ""
    requires forall i :: 0 <= i < |rows| ==> rows[i].reqId == id || rows[i].reqId == LIFECYCLE_REQ_ID
    ensures Fresh(env, events + rows)
  {
    var i := Known(events, id);
  }

  /** What is left in place behind some rows, in a session or after one. */
  ghost predicate Leaves(events: seq<LogEvent>, slot: Option<Parts>) {
    Disciplined(events) && NoneGranted(events) && (slot.Some? ==> Keeps(events, slot.value))
  }

  lemma AnswerThenDrain(events: seq<LogEvent>, p: Parts, m: Inbound, f: InFlight, env: Env, drain: Env)
    requires Keeps(events, p) && p.inFlight.None? && FlightOk(events, f) && Answers(m, f) && Prompt(env)
    requires Fresh(drain, events)
    ensures var (q, rows, _) := ThenDrain(Answered(p, m, f, env), drain); Keeps(events + rows, q)
  {
    var (q, rows, ended) := Answered(p, m, f, env);
    AnswerKeeps(events, p, m, f, env);
    if !ended {
      forall i | 0 <= i < |rows| ensures rows[i].reqId == f.reqId || rows[i].reqId == LIFECYCLE_REQ_ID {
        AnswerRows(p, m, f, env, i);
      }
      StillFresh(events, rows, f.reqId, drain);
      DrainKeeps(events + rows, q, drain);
      Associate(events, rows, Drain(q, drain).1);
    }
  }

  lemma MessageKeeps(events: seq<LogEvent>, p: Parts, m: Inbound, env: Env, drain: Env)
    requires Keeps(events, p) && Fresh(drain, events) && Prompt(env)
    ensures var (slot, rows) := OnMessage(p, m, env, drain); Leaves(events + rows, slot)
  {
    if p.inFlight.Some? && Answers(m, p.inFlight.value) {
      AnswerThenDrain(events, p.(inFlight := None), m, p.inFlight.value, env, drain);
    } else {
      AddLifecycle(events, p, Row(env, LIFECYCLE_REQ_ID, "daemon_note"));
      TornKeeps(events, p, Row(env, LIFECYCLE_REQ_ID, "session_end"));
      assert events + [] == events;
    }
  }

  lemma TimeoutKeeps(events: seq<LogEvent>, p: Parts, env: Env, drain: Env)
    requires Keeps(events, p) && Fresh(drain, events)
    ensures var (q, rows) := TimedOut(p, env, drain); Keeps(events + rows, q)
  {
    if p.inFlight.None? {
      assert events + [] == events;
    } else {
      var id, q := p.inFlight.value.reqId, p.(inFlight := None);
      var row := Row(env, id, "request_timeout");
      AddKeeps(events, q, row);
      StillFresh(events, [row], id, drain);
      DrainKeeps(events + [row], q, drain);
      Associate(events, [row], Drain(q, drain).1);
    }
  }

  lemma RouteKeeps(events: seq<LogEvent>, p: Parts, op: RoutedOp, env: Env)
    requires Keeps(events, p) && Fresh(env, events)
    ensures var (q, rows) := Routed(p, op, env); Keeps(events + rows, q)
  {
    if p.inFlight.None? { StartKeeps(events, p, op, env); } else { assert events + [] == events; }
  }

  /** A lifecycle row with no session held. */
  lemma LifecycleLeaves(events: seq<LogEvent>, e: LogEvent)
    requires Disciplined(events) && NoneGranted(events) && e.reqId == LIFECYCLE_REQ_ID
    ensures Leaves(events + [e], None) && Keeps(events + [e], NEW_PARTS)
  {
    AddLifecycle(events, NEW_PARTS, e);
  }

  lemma StepKeeps(events: seq<LogEvent>, slot: Option<Parts>, input: Input)
    requires Leaves(events, slot) && InputOk(input, events)
    ensures var (after, rows) := Step(slot, input); Leaves(events + rows, after)
  {
    if slot.None? {
      if input.Open? && input.connected {
        LifecycleLeaves(events, Row(input.env, LIFECYCLE_REQ_ID, "session_start"));
      } else {
        assert events + [] == events;
      }
    } else {
      match input
      case Open(_, _, _) => assert events + [] == events;
      case Route(op, env) => RouteKeeps(events, slot.value, op, env);
      case Message(m, env, drain) => MessageKeeps(events, slot.value, m, env, drain);
      case Deadline(env, drain) => TimeoutKeeps(events, slot.value, env, drain);
      case End(env) => LifecycleLeaves(events, Row(env, LIFECYCLE_REQ_ID, "session_end"));
    }
  }

  // ---- whole runs ----------------------------------------------------------------

  lemma UptoPrefix(events: seq<LogEvent>, rows: seq<LogEvent>, n: nat)
    requires Disciplined(events + rows)
    ensures Disciplined(events + Upto(rows, n))
  {
    if n < |rows| {
      PrefixDisciplined(events + rows, |events| + n);
      assert (events + rows)[..|events| + n] == events + rows[..n];
    }
  }

  /** After a whole sweep nothing is open. */
  lemma SweptClean(events: seq<LogEvent>, now: I64)
    requires Disciplined(events)
    ensures var swept := events + Closings(Orphans(events), now);
      Disciplined(swept) && Orphans(swept) == [] && NoneGranted(swept)
  {
    var os := Orphans(events);
    var swept := events + Closings(os, now);
    assert os[..|os|] == os && os[|os|..] == [];
    SweepFits(events, |os|, now);
    SweepResumes(events, |os|, now);
    forall id: ReqId | id != LIFECYCLE_REQ_ID ensures LastType(swept, id) != "approval_granted" {
      if LastType(swept, id) != "" {
        var i := Known(swept, id);
        NothingOpen(swept, i);
      }
    }
  }

  lemma MoveKeeps(w: World, m: Move)
    requires Inv(w) && Legal(w, m)
    ensures Inv(Apply(w, m))
  {
    match m
    case Do(input) => StepKeeps(w.events, w.slot, input);
    case Crash(input, kept) =>
      StepKeeps(w.events, w.slot, input);
      UptoPrefix(w.events, Step(w.slot, input).1, kept);
    case Sweep(now) => SweptClean(w.events, now);
    case BrokenSweep(now, kept) =>
      var os := Orphans(w.events);
      assert Upto(os, kept) == os[..|Upto(os, kept)|];
      SweepFits(w.events, |Upto(os, kept)|, now);
  }

  /** Whatever a run has come to, the log is disciplined and what is in flight matches it. */
  lemma {:induction false} RunKeeps(moves: seq<Move>, n: nat)
    requires Run(moves) && n <= |moves|
    ensures Inv(After(moves, n))
  {
    if n > 0 {
      RunKeeps(moves, n - 1);
      MoveKeeps(After(moves, n - 1), moves[n - 1]);
    }
  }

  /** In every run each row of an id but its request stands behind a row it may follow, its newest then. */
  lemma RowHasPredecessor(moves: seq<Move>, i: nat) returns (j: nat)
    requires Run(moves)
    requires var log := After(moves, |moves|).events;
      && i < |log| && log[i].reqId != LIFECYCLE_REQ_ID
      && log[i].eventType != "approval_request" && log[i].eventType != "list_services_request"
    ensures var log := After(moves, |moves|).events;
      j < i && IsLastOf(log[..i], j, log[i].reqId) && Follows(log[j].eventType, log[i].eventType)
  {
    RunKeeps(moves, |moves|);
    j := Before(After(moves, |moves|).events, i);
  }

  /** In every run an execution result has the sending, the grant and the request of its id behind it. */
  lemma ResultFollowsRequest(moves: seq<Move>, i: nat) returns (asked: nat, granted: nat, sent: nat)
    requires Run(moves)
    requires var log := After(moves, |moves|).events;
      i < |log| && log[i].reqId != LIFECYCLE_REQ_ID && log[i].eventType == "execute_result"
    ensures var log := After(moves, |moves|).events;
      && asked < granted < sent < i
      && log[asked].reqId == log[granted].reqId == log[sent].reqId == log[i].reqId
      && log[asked].eventType == "approval_request" && log[granted].eventType == "approval_granted"
      && log[sent].eventType == "execute_sent"
  {
    RunKeeps(moves, |moves|);
    asked, granted, sent := ResultHasHistory(After(moves, |moves|).events, i);
  }

  /** In every run no id has two terminal rows: nothing at all is written behind the first. */
  lemma OneTerminalRow(moves: seq<Move>, i: nat, j: nat)
    requires Run(moves)
    requires var log := After(moves, |moves|).events;
      i < j < |log| && log[i].reqId == log[j].reqId != LIFECYCLE_REQ_ID
    ensures !Terminal(After(moves, |moves|).events[i].eventType)
  {
    RunKeeps(moves, |moves|);
    TerminalIsLast(After(moves, |moves|).events, i, j);
  }

  /** Right behind a sweep every id in the log has exactly one terminal row, and it is its newest. */
  lemma SweptIdsAreClosed(moves: seq<Move>, now: I64, j: nat) returns (i: nat)
    requires Run(moves) && !After(moves, |moves|).up
    requires var log := Apply(After(moves, |moves|), Sweep(now)).events; j < |log| && log[j].reqId != LIFECYCLE_REQ_ID
    ensures var log := Apply(After(moves, |moves|), Sweep(now)).events; ClosedOnce(log, log[j].reqId, i)
  {
    RunKeeps(moves, |moves|);
    var w := After(moves, |moves|);
    var log := Apply(w, Sweep(now)).events;
    SweptClean(w.events, now);
    NothingOpen(log, j);
    i := ClosedWhenTerminal(log, log[j].reqId);
  }

  /** While the daemon is up no id rests on `approval_granted`: the execution was sent with it. */
  lemma GrantedIsSent(moves: seq<Move>, id: ReqId)
    requires Run(moves) && After(moves, |moves|).up && id != LIFECYCLE_REQ_ID
    ensures LastType(After(moves, |moves|).events, id) != "approval_granted"
  {
    RunKeeps(moves, |moves|);
  }

  // ---- what a queue does to an approved request ----------------------------------

  /** The request is answered without ever being in flight. */
  predicate Refused(op: RoutedOp, env: Env) {
    env.id.None? || (op.Authenticated? && !Json.InDomain(op.params)) || !env.encodes
  }

  /**
   An approved and sent request stays in flight, waiting for its result, exactly when nothing
   is queued behind it or the head of the queue is refused at once. Otherwise the head of the
   queue is in flight in its place, or nothing is, the link having broken.
   */
  lemma ApprovedStaysInFlightIff(events: seq<LogEvent>, p: Parts, rsp: ApprovalResponse, env: Env, drain: Env)
    requires Keeps(events, p) && p.inFlight.Some? && Answers(Approval(rsp, true), p.inFlight.value)
    requires rsp.decision == Approved && Prompt(env) && env.encodes && env.sends
    ensures var q := Completed(p, Approval(rsp, true), env, drain).value.0;
      q.inFlight == Some(InFlight(AwaitExecute, p.inFlight.value.reqId, None))
      <==> p.queue == [] || Refused(p.queue[0], drain)
    ensures p.queue != [] && !Refused(p.queue[0], drain) ==>
      Completed(p, Approval(rsp, true), env, drain).value.0.inFlight
      == if drain.sends then Some(Flight(p.queue[0], drain.id.value, drain.timestamp)) else None
  {
    var f := p.inFlight.value;
    var b := GrantSucceeds(events, p.(inFlight := None), rsp, f, env);
  }

  // ---- a run that completes ------------------------------------------------------

  lemma {:induction false} AfterFront(moves: seq<Move>, m: Move, n: nat)
    requires n <= |moves|
    ensures After(moves + [m], n) == After(moves, n)
  {
    if n > 0 { AfterFront(moves, m, n - 1); }
  }

  lemma Onward(moves: seq<Move>, w: World, m: Move, w': World)
    requires Run(moves) && After(moves, |moves|) == w && Legal(w, m) && Apply(w, m) == w'
    ensures Run(moves + [m]) && After(moves + [m], |moves + [m]|) == w'
  {
    var more := moves + [m];
    forall i | 0 <= i < |more| ensures Legal(After(more, i), more[i]) {
      AfterFront(moves, m, i);
      if i < |moves| { assert more[i] == moves[i]; }
    }
    AfterFront(moves, m, |moves|);
    assert more[|moves|] == m;
  }

  lemma Sweeps(now: I64)
    ensures Apply(INSTALLED, Sweep(now)) == World([], true, None)
  {
    assert Closings([], now) == [];
  }

  lemma Asks(events: seq<LogEvent>, op: RoutedOp, env: Env)
    requires op.Authenticated? && Json.InDomain(op.params) && env.id.Some? && env.encodes && env.sends
    ensures var f := Flight(op, env.id.value, env.timestamp);
      Apply(World(events, true, Some(NEW_PARTS)), Do(Route(op, env)))
      == World(events + [Row(env, env.id.value, "approval_request")], true, Some(NEW_PARTS.(inFlight := Some(f))))
  {
  }

  lemma Approves(events: seq<LogEvent>, f: InFlight, rsp: ApprovalResponse, env: Env, quiet: Env) returns (p: Parts)
    requires Keeps(events, NEW_PARTS) && FlightOk(events, f) && f.stage == AwaitApproval && rsp.reqId == f.reqId
    requires rsp.decision == Approved && Prompt(env) && env.encodes && env.sends
    ensures p.inFlight == Some(InFlight(AwaitExecute, f.reqId, None)) && p.queue == []
    ensures Apply(World(events, true, Some(NEW_PARTS.(inFlight := Some(f)))),
                  Do(Message(Approval(rsp, true), env, quiet)))
      == World(events + [Row(env, f.reqId, "approval_granted"), Row(env, f.reqId, "execute_sent")], true, Some(p))
  {
    var b := GrantSucceeds(events, NEW_PARTS, rsp, f, env);
    p := NEW_PARTS.(binding := b, inFlight := Some(InFlight(AwaitExecute, f.reqId, None)));
    var rows := [Row(env, f.reqId, "approval_granted"), Row(env, f.reqId, "execute_sent")];
    assert NEW_PARTS.(inFlight := Some(f)).(inFlight := None) == NEW_PARTS;
    assert rows + [] == rows;
  }

  lemma Finishes(events: seq<LogEvent>, p: Parts, result: ExecuteResponse, env: Env, quiet: Env)
    requires p.inFlight == Some(InFlight(AwaitExecute, result.reqId, None)) && p.queue == []
    ensures Apply(World(events, true, Some(p)), Do(Message(Execution(result, true), env, quiet)))
      == World(events + [Row(env, result.reqId, "execute_result")], true, Some(p.(inFlight := None)))
  {
    assert [Row(env, result.reqId, "execute_result")] + [] == [Row(env, result.reqId, "execute_result")];
  }

  /** Installed, swept, connected, and asked. */
  lemma Begins(op: RoutedOp, env: Env, now: I64) returns (moves: seq<Move>)
    requires op.Authenticated? && Json.InDomain(op.params) && env.id.Some? && env.id.value != LIFECYCLE_REQ_ID
    requires env.encodes && env.sends
    ensures Run(moves)
    ensures After(moves, |moves|) ==
      World([Row(env, LIFECYCLE_REQ_ID, "session_start")] + [Row(env, env.id.value, "approval_request")], true,
            Some(NEW_PARTS.(inFlight := Some(Flight(op, env.id.value, env.timestamp)))))
  {
    var start := Row(env, LIFECYCLE_REQ_ID, "session_start");
    var w0, w1 := World([], true, None), World([start], true, Some(NEW_PARTS));
    moves := [];
    Sweeps(now);
    Onward(moves, INSTALLED, Sweep(now), w0);
    moves := moves + [Sweep(now)];
    assert [] + [start] == [start];
    Onward(moves, w0, Do(Open(env, true, true)), w1);
    moves := moves + [Do(Open(env, true, true))];
    Asks([start], op, env);
    Onward(moves, w1, Do(Route(op, env)), Apply(w1, Do(Route(op, env))));
    moves := moves + [Do(Route(op, env))];
  }

  /**
   For any request in the domain, a phone that approves and executes it, and a link that
   holds, there is a run whose log for the id is request, grant, sending, result.
   */
  lemma RequestsCanComplete(op: RoutedOp, env: Env, rsp: ApprovalResponse, result: ExecuteResponse, now: I64)
    returns (moves: seq<Move>)
    requires op.Authenticated? && Json.InDomain(op.params) && env.id == Some(rsp.reqId) && rsp.reqId != LIFECYCLE_REQ_ID
    requires rsp.decision == Approved && result.reqId == rsp.reqId && env.encodes && env.sends && Prompt(env)
    ensures Run(moves)
    ensures After(moves, |moves|).events ==
      [Row(env, LIFECYCLE_REQ_ID, "session_start")] + [Row(env, rsp.reqId, "approval_request")]
      + [Row(env, rsp.reqId, "approval_granted"), Row(env, rsp.reqId, "execute_sent")]
      + [Row(env, rsp.reqId, "execute_result")]
  {
    var f, quiet := Flight(op, rsp.reqId, env.timestamp), env.(id := None);
    moves := Begins(op, env, now);
    var w := After(moves, |moves|);
    RunKeeps(moves, |moves|);
    var p := Approves(w.events, f, rsp, env, quiet);
    var approve := Do(Message(Approval(rsp, true), env, quiet));
    var w' := Apply(w, approve);
    Onward(moves, w, approve, w');
    moves := moves + [approve];
    Finishes(w'.events, p, result, env, quiet);
    var answer := Do(Message(Execution(result, true), env, quiet));
    Onward(moves, w', answer, Apply(w', answer));
    moves := moves + [answer];
  }
}
