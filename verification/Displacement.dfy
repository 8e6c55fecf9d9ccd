/**
 What becomes of a request that is no longer in flight: no step writes for it again, not even
 a signed result of its execution, and only a sweep closes it. The route queue can bring an
 approved and sent request into that position.
 */
module Displacement {
  import opened Wrappers
  import opened Message
  import opened HashChain
  import opened Recovery
  import opened Trail
  import opened Router
  import opened RouterRuns
  import Json

  // ---- ids no row is written for -------------------------------------------------

  predicate Clear(rows: seq<LogEvent>, id: ReqId) {
    forall i :: 0 <= i < |rows| ==> rows[i].reqId != id
  }

  lemma {:induction false} ClearKeepsType(events: seq<LogEvent>, rows: seq<LogEvent>, id: ReqId)
    requires Clear(rows, id)
    ensures LastType(events + rows, id) == LastType(events, id)
    decreases |rows|
  {
    if rows == [] {
      assert events + rows == events;
    } else {
      var n := |rows| - 1;
      ClearKeepsType(events, rows[..n], id);
      LastTypeAppend(events + rows[..n], rows[n], id);
      assert events + rows == events + rows[..n] + [rows[n]];
    }
  }

  predicate Flies(p: Parts, id: ReqId) {
    p.inFlight.Some? && p.inFlight.value.reqId == id
  }

  /** The log knows the request and nothing in memory waits for it. */
  ghost predicate Abandoned(w: World, id: ReqId) {
    && id != LIFECYCLE_REQ_ID && LastType(w.events, id) != ""
    && (w.slot.Some? ==> !Flies(w.slot.value, id))
  }

  lemma FreshIsOther(events: seq<LogEvent>, env: Env, id: ReqId)
    requires Fresh(env, events) && LastType(events, id) != ""
    ensures env.id != Some(id)
  {
    var i := Known(events, id);
  }

  lemma StartClear(events: seq<LogEvent>, p: Parts, op: RoutedOp, env: Env, id: ReqId)
    requires Fresh(env, events) && LastType(events, id) != "" && id != LIFECYCLE_REQ_ID && !Flies(p, id)
    ensures Clear(Start(p, op, env).1, id) && !Flies(Start(p, op, env).0, id)
  {
    FreshIsOther(events, env, id);
  }

  lemma DrainClear(events: seq<LogEvent>, p: Parts, env: Env, id: ReqId)
    requires Fresh(env, events) && LastType(events, id) != "" && id != LIFECYCLE_REQ_ID && !Flies(p, id)
    ensures Clear(Drain(p, env).1, id) && !Flies(Drain(p, env).0, id)
  {
    if p.queue != [] { StartClear(events, p.(queue := p.queue[1..]), p.queue[0], env, id); }
  }

  lemma AnswerClear(events: seq<LogEvent>, p: Parts, m: Inbound, f: InFlight, env: Env, id: ReqId)
    requires FlightOk(events, f) && Answers(m, f) && p.inFlight.None? && id != f.reqId && id != LIFECYCLE_REQ_ID
    ensures Clear(Answered(p, m, f, env).1, id) && !Flies(Answered(p, m, f, env).0, id)
  {
    var rows := Answered(p, m, f, env).1;
    forall i | 0 <= i < |rows| ensures rows[i].reqId != id { AnswerRows(p, m, f, env, i); }
  }

  lemma MessageClear(events: seq<LogEvent>, p: Parts, m: Inbound, env: Env, drain: Env, id: ReqId)
    requires Keeps(events, p) && Fresh(drain, events)
    requires LastType(events, id) != "" && id != LIFECYCLE_REQ_ID && !Flies(p, id)
    ensures var r := Handled(p, m, env, drain); Clear(r.1, id) && !Flies(r.0, id)
  {
    if p.inFlight.Some? && Answers(m, p.inFlight.value) {
      var q := p.(inFlight := None);
      AnswerClear(events, q, m, p.inFlight.value, env, id);
      DrainClear(events, Answered(q, m, p.inFlight.value, env).0, drain, id);
    }
  }

  lemma TimeoutClear(events: seq<LogEvent>, p: Parts, env: Env, drain: Env, id: ReqId)
    requires Fresh(drain, events) && LastType(events, id) != "" && id != LIFECYCLE_REQ_ID && !Flies(p, id)
    ensures var r := TimedOut(p, env, drain); Clear(r.1, id) && !Flies(r.0, id)
  {
    if p.inFlight.Some? { DrainClear(events, p.(inFlight := None), drain, id); }
  }

  lemma StepClear(w: World, input: Input, id: ReqId)
    requires Inv(w) && w.up && InputOk(input, w.events) && Abandoned(w, id)
    ensures var (slot, rows) := Step(w.slot, input); Clear(rows, id) && (slot.Some? ==> !Flies(slot.value, id))
  {
    if w.slot.Some? {
      var p := w.slot.value;
      match input
      case Route(op, env) => if p.inFlight.None? { StartClear(w.events, p, op, env, id); }
      case Message(m, env, drain) => MessageClear(w.events, p, m, env, drain, id);
      case Deadline(env, drain) => TimeoutClear(w.events, p, env, drain, id);
      case _ =>
    }
  }

  // ---- until the next sweep ------------------------------------------------------

  lemma MoveAbandons(w: World, m: Move, id: ReqId)
    requires Inv(w) && Legal(w, m) && Abandoned(w, id) && (m.Do? || m.Crash?)
    ensures Abandoned(Apply(w, m), id) && LastType(Apply(w, m).events, id) == LastType(w.events, id)
  {
    StepClear(w, m.input, id);
    var rows := Step(w.slot, m.input).1;
    ClearKeepsType(w.events, rows, id);
    if m.Crash? { ClearKeepsType(w.events, Upto(rows, m.kept), id); }
  }

  /** In every run a request not in flight gets no further row, from any steps or crashes, until a sweep. */
  lemma {:induction false} AbandonedUntilSweep(moves: seq<Move>, m: nat, n: nat, id: ReqId)
    requires Run(moves) && m <= n <= |moves| && Abandoned(After(moves, m), id)
    requires forall i :: m <= i < n ==> moves[i].Do? || moves[i].Crash?
    ensures Abandoned(After(moves, n), id)
    ensures LastType(After(moves, n).events, id) == LastType(After(moves, m).events, id)
    decreases n
  {
    if m < n {
      AbandonedUntilSweep(moves, m, n - 1, id);
      RunKeeps(moves, n - 1);
      MoveAbandons(After(moves, n - 1), moves[n - 1], id);
    }
  }

  lemma {:induction false} TypeBehindClosings(events: seq<LogEvent>, os: seq<Orphan>, now: I64, id: ReqId)
    ensures var t := LastType(events + Closings(os, now), id); t == "request_timeout" || t == LastType(events, id)
    decreases |os|
  {
    if os == [] {
      assert events + Closings(os, now) == events;
    } else {
      var n := |os| - 1;
      TypeBehindClosings(events, os[..n], now, id);
      ClosingsAppend(events, os, n, now);
      assert os[..n + 1] == os;
      LastTypeAppend(events + Closings(os[..n], now), Closing(os[n], now), id);
    }
  }

  /** A sweep closes whatever has a row and no terminal one, as timed out. */
  lemma SweepTimesOut(events: seq<LogEvent>, now: I64, id: ReqId)
    requires Disciplined(events) && id != LIFECYCLE_REQ_ID
    requires LastType(events, id) != "" && !Terminal(LastType(events, id))
    ensures LastType(events + Closings(Orphans(events), now), id) == "request_timeout"
  {
    var swept := events + Closings(Orphans(events), now);
    SweptClean(events, now);
    var i := Known(events, id);
    assert swept[i] == events[i];
    NothingOpen(swept, i);
    TypeBehindClosings(events, Orphans(events), now, id);
  }

  // ---- results -------------------------------------------------------------------

  /** A signed result is logged if and only if its request is in flight and was sent for execution. */
  lemma ResultLoggedIff(p: Parts, result: ExecuteResponse, env: Env, drain: Env)
    ensures (exists i :: 0 <= i < |Handled(p, Execution(result, true), env, drain).1|
                         && Handled(p, Execution(result, true), env, drain).1[i].eventType == "execute_result")
       <==> p.inFlight.Some? && p.inFlight.value.stage == AwaitExecute && p.inFlight.value.reqId == result.reqId
  {
    var m := Execution(result, true);
    var rows := Handled(p, m, env, drain).1;
    if p.inFlight.Some? && Answers(m, p.inFlight.value) {
      assert rows[0].eventType == "execute_result";
    }
  }

  // ---- a run that loses a result -------------------------------------------------

  lemma Queues(events: seq<LogEvent>, f: InFlight, op: RoutedOp, env: Env)
    ensures Apply(World(events, true, Some(NEW_PARTS.(inFlight := Some(f)))), Do(Route(op, env)))
      == World(events, true, Some(NEW_PARTS.(inFlight := Some(f), queue := [op])))
  {
    assert events + [] == events && [] + [op] == [op];
  }

  /** What a drain that takes the place of an approved request leaves. */
  lemma ApprovesAndDrains(events: seq<LogEvent>, f: InFlight, op: RoutedOp, rsp: ApprovalResponse, env: Env, drain: Env)
    returns (p: Parts)
    requires Keeps(events, NEW_PARTS.(queue := [op])) && FlightOk(events, f) && f.stage == AwaitApproval
    requires rsp.reqId == f.reqId && rsp.decision == Approved && Prompt(env) && env.encodes && env.sends
    requires !Refused(op, drain) && drain.sends
    ensures p.inFlight == Some(Flight(op, drain.id.value, drain.timestamp)) && p.queue == []
    ensures Apply(World(events, true, Some(NEW_PARTS.(inFlight := Some(f), queue := [op]))),
                  Do(Message(Approval(rsp, true), env, drain)))
      == World(events + ([Row(env, f.reqId, "approval_granted"), Row(env, f.reqId, "execute_sent")]
                         + [Row(drain, drain.id.value, RequestType(op))]), true, Some(p))
  {
    var held := NEW_PARTS.(queue := [op]);
    var b := GrantSucceeds(events, held, rsp, f, env);
    p := NEW_PARTS.(binding := b, inFlight := Some(Flight(op, drain.id.value, drain.timestamp)));
    assert NEW_PARTS.(inFlight := Some(f), queue := [op]).(inFlight := None) == held;
    assert [op][1..] == [];
  }

  lemma SentBehindDrain(events: seq<LogEvent>, granted: LogEvent, sent: LogEvent, next: LogEvent)
    requires granted.reqId == sent.reqId != next.reqId
    ensures LastType(events + ([granted, sent] + [next]), sent.reqId) == sent.eventType
  {
    TypeBehindTwo(events, granted, sent, sent.reqId);
    LastTypeAppend(events + [granted, sent], next, sent.reqId);
    assert events + [granted, sent] + [next] == events + ([granted, sent] + [next]);
  }

  /**
   Any two requests, the second queued behind the first: when the phone approves the first,
   its execution is sent and the second is in flight in its place.
   */
  lemma RequestsCanBeDisplaced(a: RoutedOp, b: RoutedOp, env: Env, drain: Env, rsp: ApprovalResponse, now: I64)
    returns (moves: seq<Move>)
    requires a.Authenticated? && Json.InDomain(a.params) && env.id == Some(rsp.reqId) && rsp.reqId != LIFECYCLE_REQ_ID
    requires rsp.decision == Approved && env.encodes && env.sends && Prompt(env)
    requires !Refused(b, drain) && drain.sends && drain.id.value != LIFECYCLE_REQ_ID && drain.id != env.id
    ensures Run(moves) && After(moves, |moves|).up && After(moves, |moves|).slot.Some?
    ensures After(moves, |moves|).slot.value.inFlight == Some(Flight(b, drain.id.value, drain.timestamp))
    ensures LastType(After(moves, |moves|).events, rsp.reqId) == "execute_sent"
    ensures Abandoned(After(moves, |moves|), rsp.reqId)
  {
    var f, quiet := Flight(a, rsp.reqId, env.timestamp), env.(id := None);
    moves := Begins(a, env, now);
    var w := After(moves, |moves|);
    RunKeeps(moves, |moves|);
    Queues(w.events, f, b, quiet);
    var w1 := Apply(w, Do(Route(b, quiet)));
    Onward(moves, w, Do(Route(b, quiet)), w1);
    moves := moves + [Do(Route(b, quiet))];
    var p := ApprovesAndDrains(w.events, f, b, rsp, env, drain);
    var approve := Do(Message(Approval(rsp, true), env, drain));
    Onward(moves, w1, approve, Apply(w1, approve));
    moves := moves + [approve];
    SentBehindDrain(w.events, Row(env, rsp.reqId, "approval_granted"), Row(env, rsp.reqId, "execute_sent"),
                    Row(drain, drain.id.value, RequestType(b)));
  }

  /**
   From there the phone's signed result writes no row for its id, and after a restart the log
   says that the request, which was executed, timed out.
   */
  lemma ResultsCanBeLost(a: RoutedOp, b: RoutedOp, env: Env, drain: Env, rsp: ApprovalResponse,
                         result: ExecuteResponse, now: I64)
    returns (moves: seq<Move>)
    requires a.Authenticated? && Json.InDomain(a.params) && env.id == Some(rsp.reqId) && rsp.reqId != LIFECYCLE_REQ_ID
    requires rsp.decision == Approved && env.encodes && env.sends && Prompt(env)
    requires !Refused(b, drain) && drain.sends && drain.id.value != LIFECYCLE_REQ_ID && drain.id != env.id
    requires result.reqId == rsp.reqId
    ensures Run(moves) && |moves| > 3
    ensures moves[|moves| - 3] == Do(Message(Execution(result, true), env, env.(id := None)))
    ensures LastType(After(moves, |moves| - 2).events, rsp.reqId) == "execute_sent"
    ensures LastType(After(moves, |moves|).events, rsp.reqId) == "request_timeout"
  {
    var quiet := env.(id := None);
    var answer, stop := Do(Message(Execution(result, true), env, quiet)), Crash(End(quiet), 0);
    moves := RequestsCanBeDisplaced(a, b, env, drain, rsp, now);
    moves := Outlives(moves, answer, rsp.reqId);
    var n := |moves|;
    moves := Outlives(moves, stop, rsp.reqId);
    var w := After(moves, |moves|);
    RunKeeps(moves, |moves|);
    SweepTimesOut(w.events, now, rsp.reqId);
    AfterFront(moves[..n], stop, n);
    assert moves == moves[..n] + [stop];
    AfterFront(moves, Sweep(now), n);
    Onward(moves, w, Sweep(now), Apply(w, Sweep(now)));
    moves := moves + [Sweep(now)];
  }

  lemma Outlives(moves: seq<Move>, m: Move, id: ReqId) returns (more: seq<Move>)
    requires Run(moves) && Legal(After(moves, |moves|), m) && (m.Do? || m.Crash?)
    requires Abandoned(After(moves, |moves|), id)
    ensures more == moves + [m] && Run(more) && Abandoned(After(more, |more|), id)
    ensures After(more, |more|) == Apply(After(moves, |moves|), m)
    ensures LastType(After(more, |more|).events, id) == LastType(After(moves, |moves|).events, id)
  {
    var w := After(moves, |moves|);
    RunKeeps(moves, |moves|);
    MoveAbandons(w, m, id);
    Onward(moves, w, m, Apply(w, m));
    more := moves + [m];
  }
}
