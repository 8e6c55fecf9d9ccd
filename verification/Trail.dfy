/**
 The discipline of the execution log: which row may stand behind which for one request id,
 and what that says about whole logs.
 */
module Trail {
  import opened Wrappers
  import opened Message
  import opened HashChain
  import opened Recovery

  /** A row of type `next` may be the one right behind a row of type `last` of its id ("" : none). */
  predicate Follows(last: string, next: string) {
    if next == "approval_request" || next == "list_services_request" then last == ""
    else if next == "approval_granted" || next == "approval_denied" then last == "approval_request"
    else if next == "execute_sent" then last == "approval_granted"
    else if next == "execute_result" then last == "execute_sent"
    else
      && next == "request_timeout"
      && (last == "approval_request" || last == "approval_granted" || last == "execute_sent"
          || last == "list_services_request")
  }

  predicate RowFits(events: seq<LogEvent>, e: LogEvent) {
    e.reqId == LIFECYCLE_REQ_ID || Follows(LastType(events, e.reqId), e.eventType)
  }

  /** Every row was allowed where it was written. */
  predicate Disciplined(events: seq<LogEvent>) {
    events == [] ||
    var n := |events| - 1;
    Disciplined(events[..n]) && RowFits(events[..n], events[n])
  }

  lemma AddRow(events: seq<LogEvent>, e: LogEvent)
    requires Disciplined(events)
    ensures Disciplined(events + [e]) <==> RowFits(events, e)
  {
    assert (events + [e])[..|events|] == events;
  }

  lemma {:induction false} PrefixDisciplined(events: seq<LogEvent>, n: nat)
    requires Disciplined(events) && n <= |events|
    ensures Disciplined(events[..n])
    decreases |events|
  {
    if n == |events| {
      assert events[..n] == events;
    } else {
      PrefixDisciplined(events[..|events| - 1], n);
      assert events[..|events| - 1][..n] == events[..n];
    }
  }

  lemma FitsAt(events: seq<LogEvent>, i: nat)
    requires Disciplined(events) && i < |events|
    ensures RowFits(events[..i], events[i])
  {
    PrefixDisciplined(events, i + 1);
    assert events[..i + 1][..i] == events[..i];
  }

  /** The newest row of an id. */
  predicate IsLastOf(events: seq<LogEvent>, i: nat, id: ReqId) {
    i < |events| && events[i].reqId == id && forall k :: i < k < |events| ==> events[k].reqId != id
  }

  lemma {:induction false} FindLast(events: seq<LogEvent>, id: ReqId, j: nat) returns (i: nat)
    requires j < |events| && events[j].reqId == id
    ensures j <= i && IsLastOf(events, i, id) && LastType(events, id) == events[i].eventType
    decreases |events|
  {
    var n := |events| - 1;
    if events[n].reqId == id {
      i := n;
    } else {
      i := FindLast(events[..n], id, j);
      assert events[..n][i] == events[i];
      forall k | i < k < |events| ensures events[k].reqId != id {
        if k < n { assert events[..n][k] == events[k]; }
      }
    }
  }

  lemma {:induction false} Unknown(events: seq<LogEvent>, id: ReqId)
    requires forall i :: 0 <= i < |events| ==> events[i].reqId != id
    ensures LastType(events, id) == ""
    decreases |events|
  {
    if events != [] { Unknown(events[..|events| - 1], id); }
  }

  /** An id with a nonempty last type has a row. */
  lemma {:induction false} Known(events: seq<LogEvent>, id: ReqId) returns (i: nat)
    requires LastType(events, id) != ""
    ensures IsLastOf(events, i, id) && events[i].eventType == LastType(events, id)
    decreases |events|
  {
    var n := |events| - 1;
    if events[n].reqId == id {
      i := n;
    } else {
      i := Known(events[..n], id);
      assert events[..n][i] == events[i];
      forall k | i < k < |events| ensures events[k].reqId != id {
        if k < n { assert events[..n][k] == events[k]; }
      }
    }
  }

  /** Behind which row a row of an id was written. */
  lemma Before(events: seq<LogEvent>, i: nat) returns (j: nat)
    requires Disciplined(events) && i < |events| && events[i].reqId != LIFECYCLE_REQ_ID
    requires events[i].eventType != "approval_request" && events[i].eventType != "list_services_request"
    ensures j < i && IsLastOf(events[..i], j, events[i].reqId) && Follows(events[j].eventType, events[i].eventType)
  {
    FitsAt(events, i);
    j := Known(events[..i], events[i].reqId);
  }

  /** An execution result has its whole history behind it, in order. */
  lemma ResultHasHistory(events: seq<LogEvent>, i: nat) returns (asked: nat, granted: nat, sent: nat)
    requires Disciplined(events) && i < |events| && events[i].reqId != LIFECYCLE_REQ_ID
    requires events[i].eventType == "execute_result"
    ensures asked < granted < sent < i
    ensures events[asked].reqId == events[granted].reqId == events[sent].reqId == events[i].reqId
    ensures events[asked].eventType == "approval_request" && events[granted].eventType == "approval_granted"
    ensures events[sent].eventType == "execute_sent"
  {
    sent := Before(events, i);
    granted := Before(events, sent);
    asked := Before(events, granted);
  }

  /** Nothing is ever written behind a terminal row of an id, so it has at most one. */
  lemma {:induction false} TerminalIsLast(events: seq<LogEvent>, i: nat, j: nat)
    requires Disciplined(events) && i < j < |events| && events[i].reqId == events[j].reqId != LIFECYCLE_REQ_ID
    ensures !Terminal(events[i].eventType)
    decreases j
  {
    FitsAt(events, j);
    var k := FindLast(events[..j], events[j].reqId, i);
    if i < k { TerminalIsLast(events, i, k); }
  }

  /** The one terminal row of an id is its newest. */
  predicate ClosedOnce(events: seq<LogEvent>, id: ReqId, i: nat) {
    && IsLastOf(events, i, id) && Terminal(events[i].eventType)
    && forall k :: 0 <= k < |events| && events[k].reqId == id && Terminal(events[k].eventType) ==> k == i
  }

  lemma ClosedWhenTerminal(events: seq<LogEvent>, id: ReqId) returns (i: nat)
    requires Disciplined(events) && id != LIFECYCLE_REQ_ID && Terminal(LastType(events, id))
    ensures ClosedOnce(events, id, i)
  {
    i := Known(events, id);
    forall k | 0 <= k < |events| && events[k].reqId == id && Terminal(events[k].eventType) ensures k == i {
      if k < i { TerminalIsLast(events, k, i); }
    }
  }

  // ---- the sweep keeps the discipline and leaves nothing open --------------------

  lemma {:induction false} FindFirst(events: seq<LogEvent>, j: nat) returns (i: nat)
    requires j < |events|
    ensures i <= j && events[i].reqId == events[j].reqId && IsFirst(events, i)
    decreases j
  {
    if IsFirst(events, j) {
      i := j;
    } else {
      var k :| 0 <= k < j && events[k].reqId == events[j].reqId;
      i := FindFirst(events, k);
    }
  }

  /** Nothing open: every id but the lifecycle id ends in a terminal row. */
  lemma NothingOpen(events: seq<LogEvent>, j: nat)
    requires Orphans(events) == [] && j < |events| && events[j].reqId != LIFECYCLE_REQ_ID
    ensures Terminal(LastType(events, events[j].reqId))
  {
    var i := FindFirst(events, j);
    OrphansFromIs(events, 0);
    assert OrphanAt(events, i) !in Orphans(events);
  }

  /** The row closing an open id fits. */
  lemma ClosingFits(events: seq<LogEvent>, o: Orphan, now: I64)
    requires Disciplined(events) && o in Orphans(events)
    ensures RowFits(events, Closing(o, now))
  {
    OrphansFromIs(events, 0);
    var i := FindLast(events, o.reqId, o.index);
    FitsAt(events, i);
  }

  lemma {:induction false} SweepFits(events: seq<LogEvent>, n: nat, now: I64)
    requires Disciplined(events) && n <= |Orphans(events)|
    ensures Disciplined(events + Closings(Orphans(events)[..n], now))
    decreases n
  {
    var os := Orphans(events);
    if n == 0 {
      assert events + Closings(os[..0], now) == events;
    } else {
      SweepFits(events, n - 1, now);
      SweepResumes(events, n - 1, now);
      var so := events + Closings(os[..n - 1], now);
      assert Orphans(so)[0] == os[n - 1];
      ClosingFits(so, os[n - 1], now);
      AddRow(so, Closing(os[n - 1], now));
      ClosingsAppend(events, os, n - 1, now);
    }
  }
}
