/**
 The approval/execute binding, after crates/conveyance-protocol/src/binding.rs.

 `Record` and `Execute` say what one call does to the tracker's state; the class carries
 the calls out in place. The theorems are about histories: any list of calls, each with
 the clock reading it saw, the readings never going back.
 */
module Binding {
  import opened Wrappers
  import opened Message
  import Json
  import Hex

  datatype Entry = Entry(approvedJson: string, approvedAt: nat)

  datatype State = State(ttl: nat, pending: map<string, Entry>, consumed: map<string, nat>)

  /** Five minutes, in milliseconds. */
  const DEFAULT_APPROVAL_TTL: nat := 300_000

  type Outcome = Result<(), ProtocolError>

  /** Drop the tombstones older than twice the TTL. */
  function Prune(s: State, now: nat): State {
    s.(consumed := map id | id in s.consumed && now - s.consumed[id] <= 2 * s.ttl :: s.consumed[id])
  }

  function Insert(s: State, id: string, json: string, now: nat): State {
    s.(pending := s.pending[id := Entry(json, now)])
  }

  function Remove(s: State, id: string): State {
    s.(pending := s.pending - {id})
  }

  function Bury(s: State, id: string, now: nat): State {
    s.(pending := s.pending - {id}, consumed := s.consumed[id := now])
  }

  ghost function Record(s: State, request: ApprovalRequest, response: ApprovalResponse, now: nat): (State, Outcome) {
    var id, pruned := Hex.Text(request.fields.reqId), Prune(s, now);
    if !Json.InDomain(request.fields.params) then (s, Err(UnsupportedValueType))
    else if request.fields.opType != AuthenticatedRequest || response.decision != Approved then (s, Err(NotApproved))
    else if request.fields.reqId != response.reqId then (s, Err(ApprovalMismatch(PayloadDiffers)))
    else if id in pruned.pending || id in pruned.consumed then (pruned, Err(DuplicateRequestId))
    else (Insert(pruned, id, BindingJson(request).value, now), Ok(()))
  }

  ghost function Execute(s: State, exec: ExecuteRequest, now: nat): (State, Outcome) {
    var id, pruned := Hex.Text(exec.fields.reqId), Prune(s, now);
    if id in pruned.consumed && now - pruned.consumed[id] <= 2 * s.ttl then
      (pruned, Err(ApprovalMismatch(ReplayedReqId)))
    else if id !in pruned.pending then (pruned, Err(ApprovalMismatch(UnknownReqId)))
    else if now - pruned.pending[id].approvedAt > s.ttl then
      (Remove(pruned, id), Err(ApprovalMismatch(ExpiredReqId)))
    else if ExecuteJson(exec).Err? then (Remove(pruned, id), Err(ExecuteJson(exec).error))
    else if ExecuteJson(exec).value == pruned.pending[id].approvedJson then (Bury(pruned, id, now), Ok(()))
    else (Bury(pruned, id, now), Err(ApprovalMismatch(PayloadDiffers)))
  }

  class ApprovedRequestTracker {
    const ttl: nat
    var pending: map<string, Entry>
    var consumed: map<string, nat>

    ghost function View(): State
      reads this
    {
      State(ttl, pending, consumed)
    }

    constructor (ttl: nat)
      ensures View() == State(ttl, map[], map[])
    {
      this.ttl := ttl;
      pending := map[];
      consumed := map[];
    }

    method RecordApproval(request: ApprovalRequest, response: ApprovalResponse, now: nat) returns (r: Outcome)
      modifies this
      ensures (View(), r) == Record(old(View()), request, response, now)
    {
      if !Json.InDomain(request.fields.params) { return Err(UnsupportedValueType); }
      if request.fields.opType != AuthenticatedRequest || response.decision != Approved {
        return Err(NotApproved);
      }
      if request.fields.reqId != response.reqId { return Err(ApprovalMismatch(PayloadDiffers)); }
      PruneTombstones(now);
      var id := Hex.Encode(request.fields.reqId);
      if id in pending || id in consumed { return Err(DuplicateRequestId); }
      var json := CanonicalBindingJson(request);
      if json.Err? { return Err(UnsupportedValueType); }
      pending := pending[id := Entry(json.value, now)];
      return Ok(());
    }

    method ValidateExecute(exec: ExecuteRequest, now: nat) returns (r: Outcome)
      modifies this
      ensures (View(), r) == Execute(old(View()), exec, now)
    {
      var id := Hex.Encode(exec.fields.reqId);
      PruneTombstones(now);
      if id in consumed && now - consumed[id] <= 2 * ttl {
        return Err(ApprovalMismatch(ReplayedReqId));
      }
      if id !in pending { return Err(ApprovalMismatch(UnknownReqId)); }
      var entry := pending[id];
      pending := pending - {id};
      if now - entry.approvedAt > ttl { return Err(ApprovalMismatch(ExpiredReqId)); }
      var json := ToCanonicalString(exec);
      if json.Err? { return Err(json.error); }
      consumed := consumed[id := now];
      if json.value == entry.approvedJson {
        return Ok(());
      } else {
        return Err(ApprovalMismatch(PayloadDiffers));
      }
    }

    method PruneTombstones(now: nat)
      modifies this`consumed
      ensures View() == Prune(old(View()), now)
    {
      consumed := map id | id in consumed && now - consumed[id] <= 2 * ttl :: consumed[id];
    }
  }

  // ---- histories -----------------------------------------------------------------

  datatype Call =
    | RecordCall(request: ApprovalRequest, response: ApprovalResponse, now: nat)
    | ExecuteCall(exec: ExecuteRequest, now: nat)

  function Id(c: Call): string {
    Hex.Text(if c.RecordCall? then c.request.fields.reqId else c.exec.fields.reqId)
  }

  ghost function Step(s: State, c: Call): (State, Outcome) {
    match c
    case RecordCall(request, response, now) => Record(s, request, response, now)
    case ExecuteCall(exec, now) => Execute(s, exec, now)
  }

  /** The tracker after the first n calls. */
  ghost function After(ttl: nat, calls: seq<Call>, n: nat): State
    requires n <= |calls|
  {
    if n == 0 then State(ttl, map[], map[]) else Step(After(ttl, calls, n - 1), calls[n - 1]).0
  }

  ghost predicate Succeeds(ttl: nat, calls: seq<Call>, i: nat)
    requires i < |calls|
  {
    Step(After(ttl, calls, i), calls[i]).1.Ok?
  }

  ghost predicate Monotone(calls: seq<Call>) {
    forall i, j :: 0 <= i < j < |calls| ==> calls[i].now <= calls[j].now
  }

  /** Call i approved id, and no execute request for id came before call n. */
  ghost predicate Outstanding(ttl: nat, calls: seq<Call>, i: nat, n: nat, id: string)
    requires n <= |calls|
  {
    && i < n && calls[i].RecordCall? && Id(calls[i]) == id && Succeeds(ttl, calls, i)
    && forall k :: i < k < n && calls[k].ExecuteCall? ==> Id(calls[k]) != id
  }

  lemma StepKeepsDisjoint(s: State, c: Call)
    requires s.pending.Keys !! s.consumed.Keys
    ensures Step(s, c).0.pending.Keys !! Step(s, c).0.consumed.Keys && Step(s, c).0.ttl == s.ttl
  {
  }

  /** No id is ever both pending and tombstoned. */
  lemma {:induction false} PendingAndConsumedDisjoint(ttl: nat, calls: seq<Call>, n: nat)
    requires n <= |calls|
    ensures After(ttl, calls, n).pending.Keys !! After(ttl, calls, n).consumed.Keys
    ensures After(ttl, calls, n).ttl == ttl
  {
    if n > 0 {
      PendingAndConsumedDisjoint(ttl, calls, n - 1);
      StepKeepsDisjoint(After(ttl, calls, n - 1), calls[n - 1]);
    }
  }

  /** How one call changes what is pending for one id. */
  lemma PendingStep(s: State, c: Call, id: string)
    requires s.pending.Keys !! s.consumed.Keys
    ensures var (t, r) := Step(s, c);
      if Id(c) != id then (id in t.pending <==> id in s.pending) && (id in s.pending ==> t.pending[id] == s.pending[id])
      else if c.ExecuteCall? then id !in t.pending
      else if r.Ok? then
        && id !in s.pending && id in t.pending && BindingJson(c.request).Ok?
        && t.pending[id] == Entry(BindingJson(c.request).value, c.now)
      else (id in t.pending <==> id in s.pending) && (id in s.pending ==> t.pending[id] == s.pending[id])
  {
  }

  /** How one more call changes what is outstanding. */
  lemma OutstandingStep(ttl: nat, calls: seq<Call>, n: nat, id: string, i: nat)
    requires 0 < n <= |calls|
    ensures var c := calls[n - 1];
      Outstanding(ttl, calls, i, n, id) <==>
        if i == n - 1 then c.RecordCall? && Id(c) == id && Succeeds(ttl, calls, n - 1)
        else Outstanding(ttl, calls, i, n - 1, id) && !(c.ExecuteCall? && Id(c) == id)
  {
  }

  ghost predicate EntryOf(s: State, id: string, c: Call) {
    && c.RecordCall? && BindingJson(c.request).Ok?
    && id in s.pending && s.pending[id] == Entry(BindingJson(c.request).value, c.now)
  }

  lemma {:induction false} OutstandingIsPending(ttl: nat, calls: seq<Call>, n: nat, id: string, i: nat)
    requires n <= |calls| && Outstanding(ttl, calls, i, n, id)
    ensures EntryOf(After(ttl, calls, n), id, calls[i])
  {
    var s := After(ttl, calls, n - 1);
    PendingAndConsumedDisjoint(ttl, calls, n - 1);
    PendingStep(s, calls[n - 1], id);
    OutstandingStep(ttl, calls, n, id, i);
    if i < n - 1 {
      OutstandingIsPending(ttl, calls, n - 1, id, i);
    }
  }

  lemma {:induction false} PendingIsOutstanding(ttl: nat, calls: seq<Call>, n: nat, id: string) returns (i: nat)
    requires n <= |calls| && id in After(ttl, calls, n).pending
    ensures Outstanding(ttl, calls, i, n, id)
  {
    var s, c := After(ttl, calls, n - 1), calls[n - 1];
    PendingAndConsumedDisjoint(ttl, calls, n - 1);
    PendingStep(s, c, id);
    if id in s.pending {
      i := PendingIsOutstanding(ttl, calls, n - 1, id);
    } else {
      i := n - 1;
    }
    OutstandingStep(ttl, calls, n, id, i);
  }

  /** What a response has to say to be recorded. */
  ghost predicate Recordable(c: Call) {
    && c.RecordCall? && Json.InDomain(c.request.fields.params) && c.request.fields.opType == AuthenticatedRequest
    && c.response.decision == Approved && c.response.reqId == c.request.fields.reqId
  }

  lemma RecordNeeds(s: State, c: Call)
    requires c.RecordCall? && Step(s, c).1.Ok?
    ensures Recordable(c)
  {
  }

  /** Call i is the approval that call j executes. */
  ghost predicate Authorizes(ttl: nat, calls: seq<Call>, i: nat, j: nat)
    requires j < |calls| && calls[j].ExecuteCall?
  {
    && Outstanding(ttl, calls, i, j, Id(calls[j]))
    && calls[i].response.decision == Approved && calls[i].response.reqId == calls[i].request.fields.reqId
    && calls[i].request.fields == calls[j].exec.fields
    && calls[j].now - calls[i].now <= ttl
  }

  /**
   An execute request is accepted exactly when the history holds a recorded response that
   approves those very eight fields under their id, no older than the TTL, with no execute
   request for the id in between.
   */
  lemma ExecuteSucceedsIff(ttl: nat, calls: seq<Call>, j: nat)
    requires j < |calls| && calls[j].ExecuteCall?
    ensures Succeeds(ttl, calls, j) <==> exists i: nat :: Authorizes(ttl, calls, i, j)
  {
    var s, exec, id := After(ttl, calls, j), calls[j].exec, Id(calls[j]);
    PendingAndConsumedDisjoint(ttl, calls, j);
    forall i: nat | Outstanding(ttl, calls, i, j, id)
      ensures Succeeds(ttl, calls, j) <==> Authorizes(ttl, calls, i, j)
    {
      RecordNeeds(After(ttl, calls, i), calls[i]);
      OutstandingIsPending(ttl, calls, j, id, i);
      if ExecuteJson(exec).Ok? {
        BindingDetermines(calls[i].request, exec);
      }
    }
    if id in s.pending {
      var i := PendingIsOutstanding(ttl, calls, j, id);
    }
  }

  /** Each accepted execution has its own approval: the later of two would have the earlier in between. */
  lemma ApprovalsAreNotShared(ttl: nat, calls: seq<Call>, i: nat, j: nat, k: nat)
    requires j < |calls| && calls[j].ExecuteCall? && k < |calls| && calls[k].ExecuteCall?
    requires Authorizes(ttl, calls, i, j) && Authorizes(ttl, calls, i, k)
    ensures j == k
  {
    assert Id(calls[j]) == Id(calls[k]);
  }

  lemma TombstoneStep(s: State, c: Call, id: string, t: nat)
    requires s.pending.Keys !! s.consumed.Keys
    requires id in s.consumed && s.consumed[id] == t && t <= c.now <= t + 2 * s.ttl
    ensures var s' := Step(s, c).0; id in s'.consumed && s'.consumed[id] == t
    ensures c.ExecuteCall? && Id(c) == id ==> Step(s, c).1.Err?
  {
  }

  /** An execute request that finds its id pending and young enough, and can be compared, leaves a tombstone. */
  ghost predicate BuriesAt(s: State, c: Call) {
    && c.ExecuteCall? && Json.InDomain(c.exec.fields.params)
    && Id(c) in s.pending && c.now - s.pending[Id(c)].approvedAt <= s.ttl
  }

  lemma BurialStep(s: State, c: Call, id: string)
    requires s.pending.Keys !! s.consumed.Keys
    ensures var t := Step(s, c).0;
      if BuriesAt(s, c) && Id(c) == id then id in t.consumed && t.consumed[id] == c.now
      else id in t.consumed ==> id in s.consumed && t.consumed[id] == s.consumed[id]
  {
    if c.ExecuteCall? { FieldsDomain(c.exec.fields); }
  }

  lemma AcceptedBuries(s: State, c: Call)
    requires s.pending.Keys !! s.consumed.Keys && c.ExecuteCall? && Step(s, c).1.Ok?
    ensures BuriesAt(s, c)
  {
  }

  /** While the clock is within twice the TTL of the execute request that left it, a tombstone stands. */
  lemma {:induction false} TombstoneLasts(ttl: nat, calls: seq<Call>, i: nat, n: nat)
    requires Monotone(calls) && i < n <= |calls| && BuriesAt(After(ttl, calls, i), calls[i])
    requires calls[n - 1].now <= calls[i].now + 2 * ttl
    ensures var s := After(ttl, calls, n); Id(calls[i]) in s.consumed && s.consumed[Id(calls[i])] == calls[i].now
  {
    PendingAndConsumedDisjoint(ttl, calls, n - 1);
    if n > i + 1 {
      TombstoneLasts(ttl, calls, i, n - 1);
      TombstoneStep(After(ttl, calls, n - 1), calls[n - 1], Id(calls[i]), calls[i].now);
    } else {
      BurialStep(After(ttl, calls, i), calls[i], Id(calls[i]));
    }
  }

  /** Every tombstone was left by an execute request. */
  lemma {:induction false} TombstoneOrigin(ttl: nat, calls: seq<Call>, n: nat, id: string) returns (k: nat)
    requires n <= |calls| && id in After(ttl, calls, n).consumed
    ensures k < n && BuriesAt(After(ttl, calls, k), calls[k]) && Id(calls[k]) == id
    ensures calls[k].now == After(ttl, calls, n).consumed[id]
  {
    var s := After(ttl, calls, n - 1);
    PendingAndConsumedDisjoint(ttl, calls, n - 1);
    BurialStep(s, calls[n - 1], id);
    if BuriesAt(s, calls[n - 1]) && Id(calls[n - 1]) == id {
      k := n - 1;
    } else {
      k := TombstoneOrigin(ttl, calls, n - 1, id);
    }
  }

  /** While the clock is within twice the TTL of an accepted execution, its tombstone stands. */
  lemma TombstoneStands(ttl: nat, calls: seq<Call>, i: nat, n: nat)
    requires Monotone(calls) && i < n <= |calls| && calls[i].ExecuteCall? && Succeeds(ttl, calls, i)
    requires calls[n - 1].now <= calls[i].now + 2 * ttl
    ensures var s := After(ttl, calls, n); Id(calls[i]) in s.consumed && s.consumed[Id(calls[i])] == calls[i].now
  {
    PendingAndConsumedDisjoint(ttl, calls, i);
    AcceptedBuries(After(ttl, calls, i), calls[i]);
    TombstoneLasts(ttl, calls, i, n);
  }

  /** Two accepted executions of one id are more than twice the TTL apart, re-approved or not. */
  lemma ExecutionsAreFarApart(ttl: nat, calls: seq<Call>, i: nat, j: nat)
    requires Monotone(calls) && i < j < |calls|
    requires calls[i].ExecuteCall? && Succeeds(ttl, calls, i)
    requires calls[j].ExecuteCall? && Succeeds(ttl, calls, j)
    requires Id(calls[i]) == Id(calls[j])
    ensures calls[j].now - calls[i].now > 2 * ttl
  {
    if calls[j].now <= calls[i].now + 2 * ttl {
      TombstoneStands(ttl, calls, i, j);
      PendingAndConsumedDisjoint(ttl, calls, j);
      TombstoneStep(After(ttl, calls, j), calls[j], Id(calls[i]), calls[i].now);
    }
  }

  // ---- exactly what each call answers ----------------------------------------------

  /** In terms of calls: execute request k found an approval of at most one TTL, with nothing in between. */
  ghost predicate Buries(ttl: nat, calls: seq<Call>, k: nat)
    requires k < |calls|
  {
    && calls[k].ExecuteCall? && Json.InDomain(calls[k].exec.fields.params)
    && exists i: nat :: Outstanding(ttl, calls, i, k, Id(calls[k])) && calls[k].now - calls[i].now <= ttl
  }

  lemma BuriesIsBurial(ttl: nat, calls: seq<Call>, k: nat)
    requires k < |calls|
    ensures Buries(ttl, calls, k) <==> BuriesAt(After(ttl, calls, k), calls[k])
  {
    PendingAndConsumedDisjoint(ttl, calls, k);
    var id := Id(calls[k]);
    forall i: nat | Outstanding(ttl, calls, i, k, id)
      ensures EntryOf(After(ttl, calls, k), id, calls[i])
    {
      OutstandingIsPending(ttl, calls, k, id, i);
    }
    if id in After(ttl, calls, k).pending {
      var i := PendingIsOutstanding(ttl, calls, k, id);
    }
  }

  /** Some approval of the id is waiting at call j. */
  ghost predicate Waiting(ttl: nat, calls: seq<Call>, j: nat, id: string)
    requires j < |calls|
  {
    exists i: nat :: Outstanding(ttl, calls, i, j, id)
  }

  /** Execute request k left a tombstone that has not aged out at call j. */
  ghost predicate Bars(ttl: nat, calls: seq<Call>, k: nat, j: nat, id: string)
    requires k < j < |calls|
  {
    Buries(ttl, calls, k) && Id(calls[k]) == id && calls[j].now - calls[k].now <= 2 * ttl
  }

  ghost predicate Barred(ttl: nat, calls: seq<Call>, j: nat, id: string)
    requires j < |calls|
  {
    exists k: nat :: k < j && Bars(ttl, calls, k, j, id)
  }

  lemma WaitingIsPending(ttl: nat, calls: seq<Call>, j: nat, id: string)
    requires j < |calls|
    ensures Waiting(ttl, calls, j, id) <==> id in After(ttl, calls, j).pending
  {
    if i: nat :| Outstanding(ttl, calls, i, j, id) { OutstandingIsPending(ttl, calls, j, id, i); }
    if id in After(ttl, calls, j).pending { var i := PendingIsOutstanding(ttl, calls, j, id); }
  }

  lemma BarredIsConsumed(ttl: nat, calls: seq<Call>, j: nat, id: string)
    requires Monotone(calls) && j < |calls|
    ensures Barred(ttl, calls, j, id) <==> id in Prune(After(ttl, calls, j), calls[j].now).consumed
  {
    PendingAndConsumedDisjoint(ttl, calls, j);
    if k: nat :| k < j && Bars(ttl, calls, k, j, id) {
      BuriesIsBurial(ttl, calls, k);
      assert calls[j - 1].now <= calls[j].now;
      TombstoneLasts(ttl, calls, k, j);
    }
    if id in Prune(After(ttl, calls, j), calls[j].now).consumed {
      var k := TombstoneOrigin(ttl, calls, j, id);
      BuriesIsBurial(ttl, calls, k);
      assert Bars(ttl, calls, k, j, id);
    }
  }

  /**
   A response is recorded if and only if it approves, under its own id, an authenticated request
   in the domain, and the id has no approval waiting and no tombstone within twice the TTL.
   */
  lemma RecordSucceedsIff(ttl: nat, calls: seq<Call>, j: nat)
    requires Monotone(calls) && j < |calls| && calls[j].RecordCall?
    ensures Succeeds(ttl, calls, j) <==>
      Recordable(calls[j]) && !Waiting(ttl, calls, j, Id(calls[j])) && !Barred(ttl, calls, j, Id(calls[j]))
  {
    WaitingIsPending(ttl, calls, j, Id(calls[j]));
    BarredIsConsumed(ttl, calls, j, Id(calls[j]));
  }

  /** Why an execute request is refused: each cause exactly, and none of them in place of another. */
  lemma RefusedBecause(ttl: nat, calls: seq<Call>, j: nat)
    requires Monotone(calls) && j < |calls| && calls[j].ExecuteCall?
    ensures var r, id := Step(After(ttl, calls, j), calls[j]).1, Id(calls[j]);
      && (r == Err(ApprovalMismatch(ReplayedReqId)) <==> Barred(ttl, calls, j, id))
      && (r == Err(ApprovalMismatch(UnknownReqId)) <==> !Barred(ttl, calls, j, id) && !Waiting(ttl, calls, j, id))
    ensures forall i: nat | Outstanding(ttl, calls, i, j, Id(calls[j])) ::
      var r := Step(After(ttl, calls, j), calls[j]).1;
      && (r == Err(ApprovalMismatch(ExpiredReqId)) <==> calls[j].now - calls[i].now > ttl)
      && (r == Err(ApprovalMismatch(PayloadDiffers)) <==>
           && calls[j].now - calls[i].now <= ttl && Json.InDomain(calls[j].exec.fields.params)
           && calls[i].request.fields != calls[j].exec.fields)
  {
    var id := Id(calls[j]);
    PendingAndConsumedDisjoint(ttl, calls, j);
    WaitingIsPending(ttl, calls, j, id);
    BarredIsConsumed(ttl, calls, j, id);
    FieldsDomain(calls[j].exec.fields);
    forall i: nat | Outstanding(ttl, calls, i, j, id) ensures EntryOf(After(ttl, calls, j), id, calls[i]) {
      OutstandingIsPending(ttl, calls, j, id, i);
    }
    if ExecuteJson(calls[j].exec).Ok? {
      forall i: nat | Outstanding(ttl, calls, i, j, id)
        ensures BindingJson(calls[i].request).value == ExecuteJson(calls[j].exec).value
                <==> calls[i].request.fields == calls[j].exec.fields
      {
        BindingDetermines(calls[i].request, calls[j].exec);
      }
    }
  }

  /** Why a response is not recorded: the first of these that applies. */
  lemma NotRecordedBecause(ttl: nat, calls: seq<Call>, j: nat)
    requires Monotone(calls) && j < |calls| && calls[j].RecordCall?
    ensures var c, r := calls[j], Step(After(ttl, calls, j), calls[j]).1;
      var f := c.request.fields;
      && (r == Err(UnsupportedValueType) <==> !Json.InDomain(f.params))
      && (r == Err(NotApproved) <==>
           Json.InDomain(f.params) && (f.opType != AuthenticatedRequest || c.response.decision != Approved))
      && (r == Err(ApprovalMismatch(PayloadDiffers)) <==>
           && Json.InDomain(f.params) && f.opType == AuthenticatedRequest && c.response.decision == Approved
           && f.reqId != c.response.reqId)
      && (r == Err(DuplicateRequestId) <==>
           Recordable(c) && (Waiting(ttl, calls, j, Id(c)) || Barred(ttl, calls, j, Id(c))))
  {
    WaitingIsPending(ttl, calls, j, Id(calls[j]));
    BarredIsConsumed(ttl, calls, j, Id(calls[j]));
  }
}
