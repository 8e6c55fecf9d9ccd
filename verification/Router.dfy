/**
 The routing half of the session owner, crates/conveyance-daemon/src/session.rs: one
 request in flight, a bounded queue behind it, the approval tracker, and the log rows
 each handler writes.

 The functions say what one handler call does to the parts and which rows it logs; the
 class carries the calls out. What the handlers draw from outside comes in as an `Env`.
 */
module Router {
  import opened Wrappers
  import opened Message
  import opened HashChain
  import opened Recovery
  import Binding
  import Json

  const ROUTE_QUEUE_CAP := 8

  datatype RoutedOp =
    | Authenticated(service: string, verb: string, endpoint: string, params: Json.Value, requestedBy: Option<string>)
    | Services

  datatype Stage = AwaitApproval | AwaitExecute | AwaitServices

  datatype InFlight = InFlight(stage: Stage, reqId: ReqId, approval: Option<ApprovalRequest>)

  datatype Parts = Parts(binding: Binding.State, inFlight: Option<InFlight>, queue: seq<RoutedOp>)

  /** A decoded inbound message, with whether its signature verifies under the phone's key. */
  datatype Inbound =
    | Approval(approvalRsp: ApprovalResponse, signed: bool)
    | Execution(executeRsp: ExecuteResponse, signed: bool)
    | ServiceList(reqId: ReqId)
    | Ping
    | Farewell
    | Unsolicited
    | Undecodable

  /**
   What one handler call draws from outside: a generated id (none on entropy failure), the
   approval's timestamp, whether encoding and sending succeed, the payload text and time of
   the row of each type, and the tracker's clock at its two calls.
   */
  datatype Env = Env(
    id: Option<ReqId>,
    timestamp: I64,
    encodes: bool,
    sends: bool,
    text: string -> string,
    clock: string -> I64,
    recordAt: nat,
    executeAt: nat)

  function Row(env: Env, id: ReqId, eventType: string): LogEvent {
    LogEvent(id, eventType, env.text(eventType), env.clock(eventType))
  }

  // ---- what each handler does ----------------------------------------------------

  function Torn(p: Parts): Parts {
    p.(inFlight := None, queue := [])
  }

  function Asked(op: RoutedOp, id: ReqId, timestamp: I64): ApprovalRequest
    requires op.Authenticated?
  {
    ApprovalRequest(
      Fields(id, AuthenticatedRequest, op.service, op.verb, op.endpoint, op.params, op.requestedBy, timestamp))
  }

  /** The flight a request starts as. */
  function Flight(op: RoutedOp, id: ReqId, timestamp: I64): InFlight {
    match op
    case Authenticated(_, _, _, _, _) => InFlight(AwaitApproval, id, Some(Asked(op, id, timestamp)))
    case Services => InFlight(AwaitServices, id, None)
  }

  function RequestType(op: RoutedOp): string {
    if op.Authenticated? then "approval_request" else "list_services_request"
  }

  function Start(p: Parts, op: RoutedOp, env: Env): (Parts, seq<LogEvent>) {
    if env.id.None? || (op.Authenticated? && !Json.InDomain(op.params)) then (p, [])
    else
      var row := Row(env, env.id.value, RequestType(op));
      if !env.encodes then (p, [row])
      else if !env.sends then (Torn(p), [row, Row(env, LIFECYCLE_REQ_ID, "session_end")])
      else (p.(inFlight := Some(Flight(op, env.id.value, env.timestamp))), [row])
  }

  function Drain(p: Parts, env: Env): (Parts, seq<LogEvent>) {
    if p.queue == [] then (p, []) else Start(p.(queue := p.queue[1..]), p.queue[0], env)
  }

  /** Parts, rows, and whether the session ended. */
  ghost function Grant(p: Parts, rsp: ApprovalResponse, flight: InFlight, request: ApprovalRequest, env: Env)
    : (Parts, seq<LogEvent>, bool)
  {
    var granted := Row(env, request.fields.reqId, "approval_granted");
    var (b1, recorded) := Binding.Record(p.binding, request, rsp, env.recordAt);
    if recorded.Err? then (p.(binding := b1), [granted], false)
    else if !Json.InDomain(request.fields.params) then (p.(binding := b1), [granted], false)
    else
      var (b2, validated) := Binding.Execute(b1, ExecuteRequest(request.fields), env.executeAt);
      if validated.Err? then (p.(binding := b2), [granted], false)
      else Send(p.(binding := b2), flight, [granted, Row(env, request.fields.reqId, "execute_sent")], env)
  }

  function Send(p: Parts, flight: InFlight, rows: seq<LogEvent>, env: Env): (Parts, seq<LogEvent>, bool) {
    if !env.encodes then (p, rows, false)
    else if !env.sends then (Torn(p), rows + [Row(env, LIFECYCLE_REQ_ID, "session_end")], true)
    else (p.(inFlight := Some(InFlight(AwaitExecute, flight.reqId, None))), rows, false)
  }

  ghost function FinishedApproval(p: Parts, rsp: ApprovalResponse, signed: bool, flight: InFlight, env: Env)
    : (Parts, seq<LogEvent>, bool)
  {
    if flight.approval.None? then (p, [], false)
    else if !signed then (p, [Row(env, LIFECYCLE_REQ_ID, "daemon_note")], false)
    else if rsp.decision != Approved then
      (p, [Row(env, flight.approval.value.fields.reqId, "approval_denied")], false)
    else Grant(p, rsp, flight, flight.approval.value, env)
  }

  function FinishedExecute(p: Parts, rsp: ExecuteResponse, signed: bool, env: Env): (Parts, seq<LogEvent>) {
    if signed then (p, [Row(env, rsp.reqId, "execute_result")]) else (p, [Row(env, LIFECYCLE_REQ_ID, "daemon_note")])
  }

  /** Drain behind what was done, unless the session ended. */
  function ThenDrain(done: (Parts, seq<LogEvent>, bool), drain: Env): (Parts, seq<LogEvent>, bool) {
    if done.2 then done
    else var (q, rows) := Drain(done.0, drain); (q, done.1 + rows, false)
  }

  /** The message is the one the flight is waiting for. */
  predicate Answers(m: Inbound, flight: InFlight) {
    match m
    case Approval(rsp, _) => flight.stage == AwaitApproval && rsp.reqId == flight.reqId
    case Execution(rsp, _) => flight.stage == AwaitExecute && rsp.reqId == flight.reqId
    case ServiceList(id) => flight.stage == AwaitServices && id == flight.reqId
    case _ => false
  }

  /** A list of services is handed on without a row. */
  ghost function Answered(p: Parts, m: Inbound, flight: InFlight, env: Env): (Parts, seq<LogEvent>, bool) {
    match m
    case Approval(rsp, signed) => FinishedApproval(p, rsp, signed, flight, env)
    case Execution(rsp, signed) => var (q, rows) := FinishedExecute(p, rsp, signed, env); (q, rows, false)
    case _ => (p, [], false)
  }

  /** None: the message answers nothing in flight. */
  ghost function Completed(p: Parts, m: Inbound, env: Env, drain: Env): Option<(Parts, seq<LogEvent>, bool)> {
    if p.inFlight.None? || !Answers(m, p.inFlight.value) then None
    else Some(ThenDrain(Answered(p.(inFlight := None), m, p.inFlight.value, env), drain))
  }

  function Ending(p: Parts, env: Env): (Parts, seq<LogEvent>, bool) {
    (Torn(p), [Row(env, LIFECYCLE_REQ_ID, "session_end")], true)
  }

  /** One decoded message: an answer, or else what each kind of message gets. A ping is answered. */
  ghost function Handled(p: Parts, m: Inbound, env: Env, drain: Env): (Parts, seq<LogEvent>, bool) {
    var answer := Completed(p, m, env, drain);
    if answer.Some? then answer.value
    else match m
      case Farewell => Ending(p, env)
      case Undecodable => Ending(p, env)
      case Ping => if env.encodes && env.sends then (p, [], false) else Ending(p, env)
      case _ => (p, [Row(env, LIFECYCLE_REQ_ID, "daemon_note")], false)
  }

  function TimedOut(p: Parts, env: Env, drain: Env): (Parts, seq<LogEvent>) {
    if p.inFlight.None? then (p, [])
    else
      var row := Row(env, p.inFlight.value.reqId, "request_timeout");
      var (q, rows) := Drain(p.(inFlight := None), drain);
      (q, [row] + rows)
  }

  function Routed(p: Parts, op: RoutedOp, env: Env): (Parts, seq<LogEvent>) {
    if p.inFlight.None? then Start(p, op, env)
    else if |p.queue| >= ROUTE_QUEUE_CAP then (p, [])
    else (p.(queue := p.queue + [op]), [])
  }

  // ---- the owner -----------------------------------------------------------------

  /** `log` holds the events appended so far; `LogDb` chains them. */
  class Owner {
    const binding: Binding.ApprovedRequestTracker
    var inFlight: Option<InFlight>
    var queue: seq<RoutedOp>
    var log: seq<LogEvent>

    ghost function View(): Parts
      reads this, binding
    {
      Parts(binding.View(), inFlight, queue)
    }

    constructor (log: seq<LogEvent>)
      ensures fresh(binding) && this.log == log
      ensures View() == Parts(Binding.State(Binding.DEFAULT_APPROVAL_TTL, map[], map[]), None, [])
    {
      this.binding := new Binding.ApprovedRequestTracker(Binding.DEFAULT_APPROVAL_TTL);
      this.inFlight, this.queue, this.log := None, [], log;
    }

    method Teardown(env: Env)
      modifies this
      ensures View() == Torn(old(View())) && log == old(log) + [Row(env, LIFECYCLE_REQ_ID, "session_end")]
    {
      inFlight, queue := None, [];
      log := log + [Row(env, LIFECYCLE_REQ_ID, "session_end")];
    }

    method StartRoute(op: RoutedOp, env: Env)
      modifies this
      ensures var r := Start(old(View()), op, env); View() == r.0 && log == old(log) + r.1
    {
      if env.id.None? { return; }
      if op.Authenticated? && !Json.InDomain(op.params) { return; }
      log := log + [Row(env, env.id.value, RequestType(op))];
      if !env.encodes { return; }
      if !env.sends {
        Teardown(env);
        return;
      }
      inFlight := Some(Flight(op, env.id.value, env.timestamp));
    }

    method DrainRouteQueue(env: Env)
      modifies this
      ensures var r := Drain(old(View()), env); View() == r.0 && log == old(log) + r.1
    {
      if queue != [] {
        var op := queue[0];
        queue := queue[1..];
        StartRoute(op, env);
      }
    }

    method FinishApproval(rsp: ApprovalResponse, signed: bool, flight: InFlight, env: Env) returns (ended: bool)
      modifies this, binding
      ensures var r := FinishedApproval(old(View()), rsp, signed, flight, env);
        View() == r.0 && log == old(log) + r.1 && ended == r.2
    {
      if flight.approval.None? { return false; }
      var request := flight.approval.value;
      if !signed {
        log := log + [Row(env, LIFECYCLE_REQ_ID, "daemon_note")];
        return false;
      }
      match rsp.decision
      case Denied =>
        log := log + [Row(env, request.fields.reqId, "approval_denied")];
        return false;
      case Expired =>
        log := log + [Row(env, request.fields.reqId, "approval_denied")];
        return false;
      case Approved =>
        ended := CarryOut(rsp, flight, request, env);
    }

    method CarryOut(rsp: ApprovalResponse, flight: InFlight, request: ApprovalRequest, env: Env) returns (ended: bool)
      modifies this, binding
      ensures var r := Grant(old(View()), rsp, flight, request, env);
        View() == r.0 && log == old(log) + r.1 && ended == r.2
    {
      log := log + [Row(env, request.fields.reqId, "approval_granted")];
      var recorded := binding.RecordApproval(request, rsp, env.recordAt);
      if recorded.Err? { return false; }
      if !Json.InDomain(request.fields.params) { return false; }
      var validated := binding.ValidateExecute(ExecuteRequest(request.fields), env.executeAt);
      if validated.Err? { return false; }
      log := log + [Row(env, request.fields.reqId, "execute_sent")];
      if !env.encodes { return false; }
      if !env.sends {
        Teardown(env);
        return true;
      }
      inFlight := Some(InFlight(AwaitExecute, flight.reqId, None));
      return false;
    }

    method FinishExecute(rsp: ExecuteResponse, signed: bool, env: Env)
      modifies this
      ensures var r := FinishedExecute(old(View()), rsp, signed, env); View() == r.0 && log == old(log) + r.1
    {
      if !signed {
        log := log + [Row(env, LIFECYCLE_REQ_ID, "daemon_note")];
        return;
      }
      log := log + [Row(env, rsp.reqId, "execute_result")];
    }

    method Answer(m: Inbound, flight: InFlight, env: Env) returns (ended: bool)
      modifies this, binding
      ensures var r := Answered(old(View()), m, flight, env); View() == r.0 && log == old(log) + r.1 && ended == r.2
    {
      ended := false;
      match m
      case Approval(rsp, signed) => ended := FinishApproval(rsp, signed, flight, env);
      case Execution(rsp, signed) => FinishExecute(rsp, signed, env);
      case _ =>
    }

    /** Gives whether the message was an answer to the request in flight, and whether the session ended. */
    method TryCompleteRoute(m: Inbound, env: Env, drain: Env) returns (mine: bool, ended: bool)
      modifies this, binding
      ensures match Completed(old(View()), m, env, drain)
        case None => !mine && View() == old(View()) && log == old(log)
        case Some(r) => mine && View() == r.0 && log == old(log) + r.1 && ended == r.2
    {
      if inFlight.None? || !Answers(m, inFlight.value) { return false, false; }
      var flight := inFlight.value;
      mine, inFlight := true, None;
      ended := Answer(m, flight, env);
      if !ended { DrainRouteQueue(drain); }
    }

    /** The part of `on_chunk` behind decryption. Gives whether the session ended. */
    method OnMessage(m: Inbound, env: Env, drain: Env) returns (ended: bool)
      modifies this, binding
      ensures var r := Handled(old(View()), m, env, drain); View() == r.0 && log == old(log) + r.1 && ended == r.2
    {
      var mine;
      mine, ended := TryCompleteRoute(m, env, drain);
      if mine { return; }
      match m
      case Farewell =>
        Teardown(env);
        return true;
      case Undecodable =>
        Teardown(env);
        return true;
      case Ping =>
        if env.encodes && env.sends { return false; }
        Teardown(env);
        return true;
      case _ =>
        log := log + [Row(env, LIFECYCLE_REQ_ID, "daemon_note")];
        return false;
    }

    method RouteTimedOut(env: Env, drain: Env)
      modifies this
      ensures var r := TimedOut(old(View()), env, drain); View() == r.0 && log == old(log) + r.1
    {
      if inFlight.None? { return; }
      var flight := inFlight.value;
      inFlight := None;
      log := log + [Row(env, flight.reqId, "request_timeout")];
      DrainRouteQueue(drain);
    }

    method OnRoute(op: RoutedOp, env: Env)
      modifies this
      ensures var r := Routed(old(View()), op, env); View() == r.0 && log == old(log) + r.1
    {
      if inFlight.Some? {
        if |queue| < ROUTE_QUEUE_CAP { queue := queue + [op]; }
        return;
      }
      StartRoute(op, env);
    }
  }
}
