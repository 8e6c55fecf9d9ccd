/**
 The phone's approval protocol, after crates/conveyance-crypto-ffi/src/approval.rs: one
 instance per authenticated session, wrapping the tracker with the ids it has received and
 the ids it has already answered.

 What the CBOR library makes of a plaintext is an input (`parsed`), and so are which
 responses encode within the size limit and whether the identity's signature has its 64 bytes.
 */
module Approval {
  import opened Wrappers
  import opened Message
  import B = Binding
  import Json
  import Hex

  /** A validated request, usable only with the protocol whose scope it carries. */
  datatype Handle = Handle(request: ApprovalRequest, owner: nat)

  datatype WireMessage =
    | WireApprovalRequest(request: ApprovalRequest)
    | WireExecuteRequest(exec: ExecuteRequest)
    | WireExecuteResponse(body: Json.Value)
    | WireSessionEnd
    | WirePing(pingId: ReqId)
    | WireListServices(listId: ReqId)
    | WireOther

  datatype Failure =
    | InvalidRequest
    | DuplicateDecision
    | DuplicateRequest
    | WrongSession
    | SigningFailed
    | BindingRejected

  datatype Outcome =
    | Registered(handle: Handle)
    | Inbound(message: WireMessage)
    | Signed(response: ApprovalResponse)
    | Accepted
    | Refused(why: Failure)

  datatype State = State(scope: nat, received: set<string>, terminal: set<string>, tracker: B.State)

  function Fresh(scope: nat): State {
    State(scope, {}, {}, B.State(B.DEFAULT_APPROVAL_TTL, map[], map[]))
  }

  /** `decode`: what parses must also make sense. */
  function Decode(parsed: Option<WireMessage>): Option<WireMessage> {
    match parsed
    case None => None
    case Some(WireApprovalRequest(r)) => if Json.InDomain(r.fields.params) then parsed else None
    case Some(WireExecuteRequest(e)) => if Json.InDomain(e.fields.params) then parsed else None
    case Some(WireExecuteResponse(body)) => if Json.InDomain(body) then parsed else None
    case _ => parsed
  }

  function Register(s: State, request: ApprovalRequest): (State, Outcome) {
    var id := Hex.Text(request.fields.reqId);
    if id in s.received then (s, Refused(DuplicateRequest))
    else (s.(received := s.received + {id}), Registered(Handle(request, s.scope)))
  }

  function DecodeRequest(s: State, parsed: Option<WireMessage>): (State, Outcome) {
    match Decode(parsed)
    case Some(WireApprovalRequest(request)) =>
      if request.fields.opType != AuthenticatedRequest then (s, Refused(InvalidRequest)) else Register(s, request)
    case _ => (s, Refused(InvalidRequest))
  }

  function DecodeInbound(s: State, parsed: Option<WireMessage>): (State, Outcome) {
    match Decode(parsed)
    case None => (s, Refused(InvalidRequest))
    case Some(WireApprovalRequest(request)) =>
      if request.fields.opType != AuthenticatedRequest then (s, Refused(InvalidRequest)) else Register(s, request)
    case Some(message) => (s, Inbound(message))
  }

  const ZEROS: bytes := [0, 0, 0, 0, 0, 0, 0, 0, 0, 0, 0, 0, 0, 0, 0, 0]

  /** What stands in the signature field until there is one. */
  const NO_SIGNATURE: Signature := ZEROS + ZEROS + ZEROS + ZEROS

  function Response(handle: Handle, decision: Decision, reason: Option<string>, signature: Signature)
    : ApprovalResponse
  {
    ApprovalResponse(handle.request.fields.reqId, decision, reason, signature)
  }

  type Encodes = ApprovalResponse -> bool

  /** The response is encoded twice: unsigned before the id is reserved, signed at the very end. */
  ghost function SignedResponse(s: State, handle: Handle, decision: Decision, reason: Option<string>,
                                encodes: Encodes, signature: Option<Signature>, now: nat): (State, Outcome)
  {
    var id := Hex.Text(handle.request.fields.reqId);
    if handle.owner != s.scope then (s, Refused(WrongSession))
    else if id in s.terminal then (s, Refused(DuplicateDecision))
    else if decision == Approved && BindingJson(handle.request).Err? then (s, Refused(InvalidRequest))
    else if !encodes(Response(handle, decision, reason, NO_SIGNATURE)) then (s, Refused(SigningFailed))
    else
      var s' := s.(terminal := s.terminal + {id});
      if signature.None? then (s', Refused(SigningFailed))
      else
        var response := Response(handle, decision, reason, signature.value);
        var sent := if encodes(response) then Signed(response) else Refused(SigningFailed);
        if decision != Approved then (s', sent)
        else
          var (tracker, recorded) := B.Record(s.tracker, handle.request, response, now);
          (s'.(tracker := tracker), if recorded.Err? then Refused(InvalidRequest) else sent)
  }

  ghost function ValidateExecuteBinding(s: State, parsed: Option<WireMessage>, now: nat): (State, Outcome) {
    match Decode(parsed)
    case Some(WireExecuteRequest(exec)) =>
      if exec.fields.opType != AuthenticatedRequest then (s, Refused(BindingRejected))
      else
        var (tracker, r) := B.Execute(s.tracker, exec, now);
        (s.(tracker := tracker), if r.Ok? then Accepted else Refused(BindingRejected))
    case _ => (s, Refused(BindingRejected))
  }

  class ApprovalProtocol {
    const scope: nat
    const tracker: B.ApprovedRequestTracker
    var receivedIds: set<string>
    var terminalIds: set<string>

    ghost function View(): State
      reads this, tracker
    {
      State(scope, receivedIds, terminalIds, tracker.View())
    }

    constructor (scope: nat)
      ensures View() == Fresh(scope) && fresh(tracker)
    {
      this.scope := scope;
      tracker := new B.ApprovedRequestTracker(B.DEFAULT_APPROVAL_TTL);
      receivedIds, terminalIds := {}, {};
    }

    method RegisterRequest(request: ApprovalRequest) returns (r: Outcome)
      modifies this`receivedIds
      ensures (View(), r) == Register(old(View()), request)
    {
      var id := Hex.Encode(request.fields.reqId);
      if id in receivedIds { return Refused(DuplicateRequest); }
      receivedIds := receivedIds + {id};
      return Registered(Handle(request, scope));
    }

    method DecodeRequestBytes(parsed: Option<WireMessage>) returns (r: Outcome)
      modifies this`receivedIds
      ensures (View(), r) == DecodeRequest(old(View()), parsed)
    {
      match Decode(parsed)
      case Some(WireApprovalRequest(request)) =>
        if request.fields.opType != AuthenticatedRequest { return Refused(InvalidRequest); }
        r := RegisterRequest(request);
      case _ => return Refused(InvalidRequest);
    }

    method DecodeInboundBytes(parsed: Option<WireMessage>) returns (r: Outcome)
      modifies this`receivedIds
      ensures (View(), r) == DecodeInbound(old(View()), parsed)
    {
      match Decode(parsed)
      case None => return Refused(InvalidRequest);
      case Some(WireApprovalRequest(request)) =>
        if request.fields.opType != AuthenticatedRequest { return Refused(InvalidRequest); }
        r := RegisterRequest(request);
      case Some(message) => return Inbound(message);
    }

    method SignResponse(handle: Handle, decision: Decision, reason: Option<string>,
                        encodes: Encodes, signature: Option<Signature>, now: nat) returns (r: Outcome)
      modifies this`terminalIds, tracker
      ensures (View(), r) == SignedResponse(old(View()), handle, decision, reason, encodes, signature, now)
    {
      if handle.owner != scope { return Refused(WrongSession); }
      var id := Hex.Encode(handle.request.fields.reqId);
      if id in terminalIds { return Refused(DuplicateDecision); }
      if decision == Approved {
        var json := CanonicalBindingJson(handle.request);
        if json.Err? { return Refused(InvalidRequest); }
      }
      if !encodes(Response(handle, decision, reason, NO_SIGNATURE)) { return Refused(SigningFailed); }
      terminalIds := terminalIds + {id};
      if signature.None? { return Refused(SigningFailed); }
      var response := Response(handle, decision, reason, signature.value);
      if decision == Approved {
        var recorded := tracker.RecordApproval(handle.request, response, now);
        if recorded.Err? { return Refused(InvalidRequest); }
      }
      if !encodes(response) { return Refused(SigningFailed); }
      return Signed(response);
    }

    method ValidateExecute(parsed: Option<WireMessage>, now: nat) returns (r: Outcome)
      modifies tracker
      ensures (View(), r) == ValidateExecuteBinding(old(View()), parsed, now)
    {
      match Decode(parsed)
      case Some(WireExecuteRequest(exec)) =>
        if exec.fields.opType != AuthenticatedRequest { return Refused(BindingRejected); }
        var verdict := tracker.ValidateExecute(exec, now);
        return if verdict.Ok? then Accepted else Refused(BindingRejected);
      case _ => return Refused(BindingRejected);
    }
  }

  // ---- histories -----------------------------------------------------------------

  datatype Call =
    | RequestCall(parsed: Option<WireMessage>)
    | InboundCall(parsed: Option<WireMessage>)
    | SignCall(handle: Handle, decision: Decision, reason: Option<string>,
               encodes: Encodes, signature: Option<Signature>, now: nat)
    | ExecuteCall(parsed: Option<WireMessage>, now: nat)

  ghost function Step(s: State, c: Call): (State, Outcome) {
    match c
    case RequestCall(parsed) => DecodeRequest(s, parsed)
    case InboundCall(parsed) => DecodeInbound(s, parsed)
    case SignCall(handle, decision, reason, encodes, signature, now) =>
      SignedResponse(s, handle, decision, reason, encodes, signature, now)
    case ExecuteCall(parsed, now) => ValidateExecuteBinding(s, parsed, now)
  }

  ghost function After(scope: nat, calls: seq<Call>, n: nat): State
    requires n <= |calls|
  {
    if n == 0 then Fresh(scope) else Step(After(scope, calls, n - 1), calls[n - 1]).0
  }

  ghost function Answer(scope: nat, calls: seq<Call>, i: nat): Outcome
    requires i < |calls|
  {
    Step(After(scope, calls, i), calls[i]).1
  }

  /** Handles are opaque: one that carries this session's scope was issued by this session. */
  ghost predicate HandlesIssued(scope: nat, calls: seq<Call>) {
    forall i: nat :: i < |calls| && calls[i].SignCall? && calls[i].handle.owner == scope ==>
      exists k: nat :: k < i && Answer(scope, calls, k) == Registered(calls[i].handle)
  }

  /** Every id the tracker knows has been answered. */
  ghost predicate Inv(s: State) {
    && s.tracker.pending.Keys + s.tracker.consumed.Keys <= s.terminal
    && s.tracker.pending.Keys !! s.tracker.consumed.Keys
    && s.tracker.ttl == B.DEFAULT_APPROVAL_TTL
  }

  ghost predicate Grew(s: State, t: State) {
    Inv(t) && s.received <= t.received && s.terminal <= t.terminal && t.scope == s.scope
  }

  lemma SignKeepsInv(s: State, c: Call)
    requires Inv(s) && c.SignCall?
    ensures Grew(s, Step(s, c).0)
  {
  }

  lemma StepKeepsInv(s: State, c: Call)
    requires Inv(s)
    ensures Grew(s, Step(s, c).0)
  {
    if c.SignCall? { SignKeepsInv(s, c); }
  }

  lemma {:induction false} Reachable(scope: nat, calls: seq<Call>, n: nat)
    requires n <= |calls|
    ensures Inv(After(scope, calls, n)) && After(scope, calls, n).scope == scope
  {
    if n > 0 {
      Reachable(scope, calls, n - 1);
      StepKeepsInv(After(scope, calls, n - 1), calls[n - 1]);
    }
  }

  lemma {:induction false} IdsStay(scope: nat, calls: seq<Call>, m: nat, n: nat)
    requires m <= n <= |calls|
    ensures After(scope, calls, m).received <= After(scope, calls, n).received
    ensures After(scope, calls, m).terminal <= After(scope, calls, n).terminal
    decreases n
  {
    if m < n {
      IdsStay(scope, calls, m, n - 1);
      Reachable(scope, calls, n - 1);
      StepKeepsInv(After(scope, calls, n - 1), calls[n - 1]);
    }
  }

  function HandleId(h: Handle): string {
    Hex.Text(h.request.fields.reqId)
  }

  /** No id is registered twice in a session. */
  lemma {:induction false} OneRegistration(scope: nat, calls: seq<Call>, i: nat, j: nat)
    requires i < j < |calls| && Answer(scope, calls, i).Registered? && Answer(scope, calls, j).Registered?
    ensures HandleId(Answer(scope, calls, i).handle) != HandleId(Answer(scope, calls, j).handle)
  {
    IdsStay(scope, calls, i + 1, j);
    RegisteredIds(After(scope, calls, i), calls[i]);
    RegisteredIds(After(scope, calls, j), calls[j]);
  }

  lemma RegisteredIds(s: State, c: Call)
    requires Step(s, c).1.Registered?
    ensures HandleId(Step(s, c).1.handle) in Step(s, c).0.received - s.received
    ensures var f := Step(s, c).1.handle.request.fields; Json.InDomain(f.params) && f.opType == AuthenticatedRequest
  {
  }

  /** The call asks the identity for a signature, whether or not a response then leaves. */
  ghost predicate Signs(s: State, c: Call) {
    c.SignCall? && HandleId(c.handle) in Step(s, c).0.terminal - s.terminal
  }

  lemma SignedIsSigning(s: State, c: Call)
    requires Step(s, c).1.Signed?
    ensures Signs(s, c)
  {
  }

  /** No id is signed for twice in a session, even after its tombstone has aged out. */
  lemma {:induction false} OneSignature(scope: nat, calls: seq<Call>, i: nat, j: nat)
    requires i < j < |calls|
    requires Signs(After(scope, calls, i), calls[i]) && Signs(After(scope, calls, j), calls[j])
    ensures HandleId(calls[i].handle) != HandleId(calls[j].handle)
  {
    SignedStays(scope, calls, i, j);
    SigningReserves(After(scope, calls, j), calls[j]);
  }

  lemma {:induction false} SignedStays(scope: nat, calls: seq<Call>, i: nat, n: nat)
    requires i < n <= |calls| && Signs(After(scope, calls, i), calls[i])
    ensures HandleId(calls[i].handle) in After(scope, calls, n).terminal
  {
    SigningReserves(After(scope, calls, i), calls[i]);
    IdsStay(scope, calls, i + 1, n);
  }

  lemma SigningReserves(s: State, c: Call)
    requires Signs(s, c)
    ensures HandleId(c.handle) in Step(s, c).0.terminal && HandleId(c.handle) !in s.terminal
  {
  }

  /** Encoding looks at the length of a signature, which is fixed, and not at its bytes. */
  ghost predicate SizeOnly(encodes: Encodes) {
    forall r: ApprovalResponse, q: ApprovalResponse ::
      r == q.(signature := r.signature) ==> encodes(r) == encodes(q)
  }

  function ResponseOf(c: Call): ApprovalResponse
    requires c.SignCall? && c.signature.Some?
  {
    Response(c.handle, c.decision, c.reason, c.signature.value)
  }

  lemma SigningBinds(s: State, c: Call)
    requires Inv(s) && Signs(s, c)
    requires Json.InDomain(c.handle.request.fields.params) && c.handle.request.fields.opType == AuthenticatedRequest
    ensures Step(s, c).1.Signed? <==> c.signature.Some? && c.encodes(ResponseOf(c))
    ensures c.encodes(Response(c.handle, c.decision, c.reason, NO_SIGNATURE))
  {
  }

  /**
   Once the id is reserved, only a missing signature or the second encoding can hold back the
   response; and not the second encoding if it depends on sizes alone, as the first has passed.
   */
  lemma ReservedMeansSigned(scope: nat, calls: seq<Call>, i: nat)
    requires HandlesIssued(scope, calls) && i < |calls| && Signs(After(scope, calls, i), calls[i])
    ensures Answer(scope, calls, i).Signed? <==> calls[i].signature.Some? && calls[i].encodes(ResponseOf(calls[i]))
    ensures SizeOnly(calls[i].encodes) ==> (Answer(scope, calls, i).Signed? <==> calls[i].signature.Some?)
  {
    Reachable(scope, calls, i);
    IssuedIsFit(scope, calls, i);
    SigningBinds(After(scope, calls, i), calls[i]);
  }

  /** A handle of this session carries a registered request. */
  lemma IssuedIsFit(scope: nat, calls: seq<Call>, i: nat)
    requires HandlesIssued(scope, calls) && i < |calls| && Signs(After(scope, calls, i), calls[i])
    ensures var f := calls[i].handle.request.fields; Json.InDomain(f.params) && f.opType == AuthenticatedRequest
  {
    Reachable(scope, calls, i);
    var k: nat :| k < i && Answer(scope, calls, k) == Registered(calls[i].handle);
    RegisteredIds(After(scope, calls, k), calls[k]);
  }

  /** The call has an approval signed, which the tracker keeps whether or not the response then leaves. */
  ghost predicate Binds(s: State, c: Call) {
    Signs(s, c) && c.decision == Approved && c.signature.Some?
  }

  /** Call i bound an approval, of this text and at this time, for the pending id. */
  ghost predicate Grants(s: State, c: Call, id: string, entry: B.Entry) {
    && Binds(s, c) && HandleId(c.handle) == id
    && BindingJson(c.handle.request) == Ok(entry.approvedJson) && c.now == entry.approvedAt
  }

  lemma PendingOrigin(s: State, c: Call, id: string)
    requires Inv(s) && id in Step(s, c).0.tracker.pending
    ensures var e := Step(s, c).0.tracker.pending[id];
      (id in s.tracker.pending && s.tracker.pending[id] == e) || Grants(s, c, id, e)
  {
  }

  lemma {:induction false} PendingIsGranted(scope: nat, calls: seq<Call>, n: nat, id: string) returns (i: nat)
    requires n <= |calls| && id in After(scope, calls, n).tracker.pending
    ensures i < n && Grants(After(scope, calls, i), calls[i], id, After(scope, calls, n).tracker.pending[id])
  {
    var s := After(scope, calls, n - 1);
    Reachable(scope, calls, n - 1);
    PendingOrigin(s, calls[n - 1], id);
    if id in s.tracker.pending && s.tracker.pending[id] == After(scope, calls, n).tracker.pending[id] {
      i := PendingIsGranted(scope, calls, n - 1, id);
    } else {
      i := n - 1;
    }
  }

  /** The call hands the tracker an execute request for the id. */
  predicate Consumes(c: Call, id: string) {
    && c.ExecuteCall? && Decode(c.parsed).Some? && Decode(c.parsed).value.WireExecuteRequest?
    && Decode(c.parsed).value.exec.fields.opType == AuthenticatedRequest
    && Hex.Text(Decode(c.parsed).value.exec.fields.reqId) == id
  }

  function ExecOf(c: Call): ExecuteRequest
    requires c.ExecuteCall? && c.parsed.Some? && c.parsed.value.WireExecuteRequest?
  {
    c.parsed.value.exec
  }

  function ExecId(c: Call): string
    requires c.ExecuteCall? && c.parsed.Some? && c.parsed.value.WireExecuteRequest?
  {
    Hex.Text(ExecOf(c).fields.reqId)
  }

  lemma AcceptanceNeedsPending(s: State, c: Call)
    requires Inv(s) && c.ExecuteCall? && Step(s, c).1.Accepted?
    ensures c.parsed.Some? && c.parsed.value.WireExecuteRequest?
    ensures ExecId(c) in s.tracker.pending && ExecId(c) !in Step(s, c).0.tracker.pending
    ensures ExecuteJson(ExecOf(c)) == Ok(s.tracker.pending[ExecId(c)].approvedJson)
    ensures c.now - s.tracker.pending[ExecId(c)].approvedAt <= B.DEFAULT_APPROVAL_TTL
  {
  }

  /** Whoever was answered and is not pending never becomes pending again. */
  lemma {:induction false} SpentStaysSpent(scope: nat, calls: seq<Call>, m: nat, n: nat, id: string)
    requires m <= n <= |calls|
    requires id in After(scope, calls, m).terminal && id !in After(scope, calls, m).tracker.pending
    ensures id !in After(scope, calls, n).tracker.pending
    decreases n
  {
    if m < n {
      SpentStaysSpent(scope, calls, m, n - 1, id);
      IdsStay(scope, calls, m, n - 1);
      Reachable(scope, calls, n - 1);
      SpentStep(After(scope, calls, n - 1), calls[n - 1], id);
    }
  }

  lemma SpentStep(s: State, c: Call, id: string)
    requires Inv(s) && id in s.terminal && id !in s.tracker.pending
    ensures id !in Step(s, c).0.tracker.pending
  {
  }

  /** No id is executed twice in a session, however much time passes. */
  lemma {:induction false} OneExecution(scope: nat, calls: seq<Call>, i: nat, j: nat)
    requires i < j < |calls| && calls[i].ExecuteCall? && calls[j].ExecuteCall?
    requires Answer(scope, calls, i).Accepted? && Answer(scope, calls, j).Accepted?
    ensures calls[i].parsed.Some? && calls[i].parsed.value.WireExecuteRequest?
    ensures calls[j].parsed.Some? && calls[j].parsed.value.WireExecuteRequest?
    ensures ExecId(calls[i]) != ExecId(calls[j])
  {
    var s := After(scope, calls, i);
    Reachable(scope, calls, i);
    Reachable(scope, calls, i + 1);
    Reachable(scope, calls, j);
    AcceptanceNeedsPending(s, calls[i]);
    AcceptanceNeedsPending(After(scope, calls, j), calls[j]);
    StepKeepsInv(s, calls[i]);
    SpentStaysSpent(scope, calls, i + 1, j, ExecId(calls[i]));
  }

  // ---- what the other calls answer -----------------------------------------------------

  /** A signed response says what was decided, for the request it was decided on, with the signature made. */
  lemma SignedSays(scope: nat, calls: seq<Call>, i: nat)
    requires i < |calls| && Answer(scope, calls, i).Signed?
    ensures var r, c := Answer(scope, calls, i).response, calls[i];
      && c.SignCall? && r.reqId == c.handle.request.fields.reqId && r.decision == c.decision
      && r.reason == c.reason && c.signature == Some(r.signature)
  {
  }

  /** A registered handle carries the request that came in, as it came. */
  lemma RegisteredSays(scope: nat, calls: seq<Call>, i: nat)
    requires i < |calls| && Answer(scope, calls, i).Registered?
    ensures (calls[i].RequestCall? || calls[i].InboundCall?)
    ensures calls[i].parsed == Some(WireApprovalRequest(Answer(scope, calls, i).handle.request))
  {
  }

  lemma {:induction false} TerminalOrigin(scope: nat, calls: seq<Call>, n: nat, id: string) returns (k: nat)
    requires n <= |calls| && id in After(scope, calls, n).terminal
    ensures k < n && Signs(After(scope, calls, k), calls[k]) && HandleId(calls[k].handle) == id
  {
    if id in After(scope, calls, n - 1).terminal {
      k := TerminalOrigin(scope, calls, n - 1, id);
    } else {
      k := n - 1;
    }
  }

  lemma {:induction false} ReceivedOrigin(scope: nat, calls: seq<Call>, n: nat, id: string) returns (k: nat)
    requires n <= |calls| && id in After(scope, calls, n).received
    ensures k < n && Answer(scope, calls, k).Registered? && HandleId(Answer(scope, calls, k).handle) == id
  {
    if id in After(scope, calls, n - 1).received {
      k := ReceivedOrigin(scope, calls, n - 1, id);
    } else {
      k := n - 1;
    }
  }

  ghost predicate SignedFor(scope: nat, calls: seq<Call>, k: nat, id: string)
    requires k < |calls|
  {
    Signs(After(scope, calls, k), calls[k]) && HandleId(calls[k].handle) == id
  }

  /** A decision is refused as a duplicate if and only if its id was signed for before, in this session. */
  lemma DuplicateDecisionIff(scope: nat, calls: seq<Call>, i: nat)
    requires i < |calls| && calls[i].SignCall?
    ensures Answer(scope, calls, i) == Refused(WrongSession) <==> calls[i].handle.owner != scope
    ensures Answer(scope, calls, i) == Refused(DuplicateDecision) <==>
      calls[i].handle.owner == scope && exists k: nat :: k < i && SignedFor(scope, calls, k, HandleId(calls[i].handle))
  {
    Reachable(scope, calls, i);
    var id := HandleId(calls[i].handle);
    if id in After(scope, calls, i).terminal {
      var k := TerminalOrigin(scope, calls, i, id);
      assert SignedFor(scope, calls, k, id);
    }
    forall k: nat | k < i && SignedFor(scope, calls, k, id) ensures id in After(scope, calls, i).terminal {
      SignedStays(scope, calls, k, i);
    }
  }

  ghost predicate RegisteredFor(scope: nat, calls: seq<Call>, k: nat, id: string)
    requires k < |calls|
  {
    Answer(scope, calls, k).Registered? && HandleId(Answer(scope, calls, k).handle) == id
  }

  lemma FitIsRegistered(s: State, c: Call, request: ApprovalRequest)
    requires (c.RequestCall? || c.InboundCall?) && c.parsed == Some(WireApprovalRequest(request))
    requires Json.InDomain(request.fields.params) && request.fields.opType == AuthenticatedRequest
    ensures Step(s, c).1 == if Hex.Text(request.fields.reqId) in s.received then Refused(DuplicateRequest)
                            else Registered(Handle(request, s.scope))
  {
  }

  /** A fit request is registered if and only if its id was not registered before. */
  lemma RegisteredIff(scope: nat, calls: seq<Call>, i: nat, request: ApprovalRequest)
    requires i < |calls| && (calls[i].RequestCall? || calls[i].InboundCall?)
    requires calls[i].parsed == Some(WireApprovalRequest(request))
    requires Json.InDomain(request.fields.params) && request.fields.opType == AuthenticatedRequest
    ensures var id := Hex.Text(request.fields.reqId);
      && (Answer(scope, calls, i).Registered? <==> !exists k: nat :: k < i && RegisteredFor(scope, calls, k, id))
      && (!Answer(scope, calls, i).Registered? ==> Answer(scope, calls, i) == Refused(DuplicateRequest))
  {
    var id := Hex.Text(request.fields.reqId);
    FitIsRegistered(After(scope, calls, i), calls[i], request);
    if id in After(scope, calls, i).received {
      var k := ReceivedOrigin(scope, calls, i, id);
      assert RegisteredFor(scope, calls, k, id);
    }
    forall k: nat | k < i && RegisteredFor(scope, calls, k, id) ensures id in After(scope, calls, i).received {
      RegisteredIds(After(scope, calls, k), calls[k]);
      IdsStay(scope, calls, k + 1, i);
    }
  }

  // ---- exactly when an execution is accepted ---------------------------------------

  /** Call i bound the approval that call j executes, and nothing came in between. */
  ghost predicate Authorizes(scope: nat, calls: seq<Call>, i: nat, j: nat)
    requires j < |calls|
  {
    && i < j && Binds(After(scope, calls, i), calls[i])
    && calls[j].ExecuteCall? && calls[j].parsed.Some? && calls[j].parsed.value.WireExecuteRequest?
    && ExecOf(calls[j]).fields == calls[i].handle.request.fields
    && calls[j].now - calls[i].now <= B.DEFAULT_APPROVAL_TTL
    && forall k :: i < k < j ==> !Consumes(calls[k], ExecId(calls[j]))
  }

  /** The tracker holds this approval for its id. */
  ghost predicate HoldsFor(t: B.State, id: string, request: ApprovalRequest, at: nat) {
    id in t.pending && BindingJson(request) == Ok(t.pending[id].approvedJson) && t.pending[id].approvedAt == at
  }

  /** A bound approval is pending right away. */
  lemma BoundIsPending(s: State, c: Call)
    requires Inv(s) && Binds(s, c)
    requires Json.InDomain(c.handle.request.fields.params) && c.handle.request.fields.opType == AuthenticatedRequest
    ensures HoldsFor(Step(s, c).0.tracker, HandleId(c.handle), c.handle.request, c.now)
  {
  }

  /** What is pending stays as it is until an execute request for its id. */
  lemma PendingStep(s: State, c: Call, id: string)
    requires Inv(s) && id in s.tracker.pending
    ensures var t := Step(s, c).0.tracker;
      if Consumes(c, id) then id !in t.pending else id in t.pending && t.pending[id] == s.tracker.pending[id]
  {
  }

  lemma {:induction false} PendingStays(scope: nat, calls: seq<Call>, i: nat, n: nat, id: string,
                                        request: ApprovalRequest, at: nat)
    requires i < n <= |calls| && HoldsFor(Step(After(scope, calls, i), calls[i]).0.tracker, id, request, at)
    requires forall k :: i < k < n ==> !Consumes(calls[k], id)
    ensures HoldsFor(After(scope, calls, n).tracker, id, request, at)
    decreases n
  {
    if i + 1 < n {
      PendingStays(scope, calls, i, n - 1, id, request, at);
      Reachable(scope, calls, n - 1);
      PendingStep(After(scope, calls, n - 1), calls[n - 1], id);
    }
  }

  /** A pending request of these fields, young enough, is accepted. */
  lemma PendingIsAccepted(s: State, c: Call, request: ApprovalRequest, at: nat)
    requires Inv(s) && c.ExecuteCall? && c.parsed.Some? && c.parsed.value.WireExecuteRequest?
    requires ExecOf(c).fields == request.fields
    requires Json.InDomain(request.fields.params) && request.fields.opType == AuthenticatedRequest
    requires HoldsFor(s.tracker, ExecId(c), request, at) && c.now - at <= B.DEFAULT_APPROVAL_TTL
    ensures Step(s, c).1.Accepted?
  {
    BindingDetermines(request, ExecOf(c));
  }

  lemma BindingLasts(scope: nat, calls: seq<Call>, i: nat, j: nat, id: string)
    requires HandlesIssued(scope, calls) && i < j <= |calls| && Binds(After(scope, calls, i), calls[i])
    requires HandleId(calls[i].handle) == id && forall k :: i < k < j ==> !Consumes(calls[k], id)
    ensures HoldsFor(After(scope, calls, j).tracker, id, calls[i].handle.request, calls[i].now)
  {
    Reachable(scope, calls, i);
    IssuedIsFit(scope, calls, i);
    BoundIsPending(After(scope, calls, i), calls[i]);
    PendingStays(scope, calls, i, j, id, calls[i].handle.request, calls[i].now);
  }

  lemma AuthorizedIsAccepted(scope: nat, calls: seq<Call>, i: nat, j: nat)
    requires HandlesIssued(scope, calls) && j < |calls| && Authorizes(scope, calls, i, j)
    ensures Answer(scope, calls, j).Accepted?
  {
    BindingLasts(scope, calls, i, j, ExecId(calls[j]));
    IssuedIsFit(scope, calls, i);
    Reachable(scope, calls, j);
    PendingIsAccepted(After(scope, calls, j), calls[j], calls[i].handle.request, calls[i].now);
  }

  lemma AcceptedIsAuthorized(scope: nat, calls: seq<Call>, j: nat) returns (i: nat)
    requires j < |calls| && calls[j].ExecuteCall? && Answer(scope, calls, j).Accepted?
    ensures Authorizes(scope, calls, i, j)
  {
    Reachable(scope, calls, j);
    AcceptanceNeedsPending(After(scope, calls, j), calls[j]);
    var id := ExecId(calls[j]);
    i := PendingIsGranted(scope, calls, j, id);
    BindingDetermines(calls[i].handle.request, ExecOf(calls[j]));
    forall k | i < k < j ensures !Consumes(calls[k], id) {
      if Consumes(calls[k], id) {
        SignedStays(scope, calls, i, k + 1);
        Consumed(scope, calls, k, id);
        SpentStaysSpent(scope, calls, k + 1, j, id);
      }
    }
  }

  lemma Consumed(scope: nat, calls: seq<Call>, k: nat, id: string)
    requires k < |calls| && Consumes(calls[k], id)
    ensures id !in After(scope, calls, k + 1).tracker.pending
  {
    Reachable(scope, calls, k);
    Reachable(scope, calls, k + 1);
    var s := After(scope, calls, k);
    if id in s.tracker.pending { PendingStep(s, calls[k], id); }
  }

  /**
   Over every history an execute request is accepted if and only if an approval of exactly its
   request was signed at most one TTL before, with no execute request for its id in between.
   */
  lemma AcceptedIff(scope: nat, calls: seq<Call>, j: nat)
    requires HandlesIssued(scope, calls) && j < |calls| && calls[j].ExecuteCall?
    ensures Answer(scope, calls, j).Accepted? <==> exists i: nat :: Authorizes(scope, calls, i, j)
  {
    if Answer(scope, calls, j).Accepted? { var i := AcceptedIsAuthorized(scope, calls, j); }
    forall i: nat | Authorizes(scope, calls, i, j) ensures Answer(scope, calls, j).Accepted? {
      AuthorizedIsAccepted(scope, calls, i, j);
    }
  }

  /**
   An accepted execution goes back to one registration k and one approval i, in that order,
   of exactly the executed request. The signed response left if it was encoded again, as it
   was if encoding depends on sizes alone.
   */
  lemma AcceptedMeansApproved(scope: nat, calls: seq<Call>, j: nat) returns (k: nat, i: nat)
    requires HandlesIssued(scope, calls)
    requires j < |calls| && calls[j].ExecuteCall? && Answer(scope, calls, j).Accepted?
    ensures k < i && Authorizes(scope, calls, i, j) && Answer(scope, calls, k) == Registered(calls[i].handle)
    ensures Answer(scope, calls, i).Signed? <==> calls[i].encodes(ResponseOf(calls[i]))
    ensures SizeOnly(calls[i].encodes) ==> Answer(scope, calls, i).Signed?
  {
    i := AcceptedIsAuthorized(scope, calls, j);
    ReservedMeansSigned(scope, calls, i);
    Reachable(scope, calls, i);
    k :| k < i && Answer(scope, calls, k) == Registered(calls[i].handle);
  }

  /** Any registered request that is approved, signed and executed in time is accepted. */
  lemma RequestsCanBeAccepted(scope: nat, request: ApprovalRequest, encodes: Encodes, sig: Signature,
                              at: nat, later: nat)
    returns (calls: seq<Call>)
    requires Json.InDomain(request.fields.params) && request.fields.opType == AuthenticatedRequest
    requires encodes(ApprovalResponse(request.fields.reqId, Approved, None, NO_SIGNATURE))
    requires at <= later <= at + B.DEFAULT_APPROVAL_TTL
    ensures HandlesIssued(scope, calls) && |calls| == 3 && Answer(scope, calls, 2).Accepted?
  {
    var handle := Handle(request, scope);
    calls := [RequestCall(Some(WireApprovalRequest(request))),
              SignCall(handle, Approved, None, encodes, Some(sig), at),
              ExecuteCall(Some(WireExecuteRequest(ExecuteRequest(request.fields))), later)];
    assert After(scope, calls, 0) == Fresh(scope);
    assert Answer(scope, calls, 0) == Registered(handle);
    assert Signs(After(scope, calls, 1), calls[1]);
    assert Authorizes(scope, calls, 1, 2);
    AuthorizedIsAccepted(scope, calls, 1, 2);
  }

  /** Any other message that makes sense is handed on as it came, and changes nothing. */
  lemma InboundSays(s: State, parsed: Option<WireMessage>)
    ensures DecodeInbound(s, parsed).1.Inbound? <==>
      && parsed.Some? && !parsed.value.WireApprovalRequest?
      && (parsed.value.WireExecuteRequest? ==> Json.InDomain(parsed.value.exec.fields.params))
      && (parsed.value.WireExecuteResponse? ==> Json.InDomain(parsed.value.body))
    ensures DecodeInbound(s, parsed).1.Inbound? ==> DecodeInbound(s, parsed) == (s, Inbound(parsed.value))
  {
  }
}
