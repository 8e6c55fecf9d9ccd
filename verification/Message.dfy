/**
 The request and response records and the JSON they are compared and signed as, after
 crates/conveyance-protocol/src/message.rs.
 */
module Message {
  import opened Wrappers
  import opened Json
  import JsonReader
  import Hex
  import Utf8

  type ReqId = id: bytes | |id| == 16 witness seq(16, _ => 0)

  type I64 = n: int | -0x8000_0000_0000_0000 <= n < 0x8000_0000_0000_0000

  type Signature = sig: bytes | |sig| == 64 witness seq(64, _ => 0)

  datatype OpType = AuthenticatedRequest | ListServices | SessionEnd

  datatype Decision = Approved | Denied | Expired

  datatype Status = StatusOk | StatusError | StatusDenied

  /** The eight fields an approval request and an execute request have in common. */
  datatype Fields = Fields(
    reqId: ReqId,
    opType: OpType,
    service: string,
    verb: string,
    endpoint: string,
    params: Value,
    requestedBy: Option<string>,
    timestamp: I64)

  datatype ApprovalRequest = ApprovalRequest(fields: Fields)

  datatype ExecuteRequest = ExecuteRequest(fields: Fields)

  datatype ApprovalResponse = ApprovalResponse(
    reqId: ReqId, decision: Decision, reason: Option<string>, signature: Signature)

  datatype ExecuteResponse = ExecuteResponse(
    reqId: ReqId, status: Status, httpStatus: Option<U16>, body: Value, executedAt: I64, signature: Signature)

  datatype MismatchCause = PayloadDiffers | UnknownReqId | ExpiredReqId | ReplayedReqId

  datatype ProtocolError =
    | UnsupportedValueType
    | NotApproved
    | ApprovalMismatch(cause: MismatchCause)
    | DuplicateRequestId
    | OutsideDomain

  // ---- serialization to JSON -----------------------------------------------------

  function OpName(op: OpType): string {
    match op
    case AuthenticatedRequest => "authenticated_request"
    case ListServices => "list_services"
    case SessionEnd => "session_end"
  }

  function DecisionName(d: Decision): string {
    match d
    case Approved => "approved"
    case Denied => "denied"
    case Expired => "expired"
  }

  function StatusName(s: Status): string {
    match s
    case StatusOk => "ok"
    case StatusError => "error"
    case StatusDenied => "denied"
  }

  /** An absent optional field has no key at all; it is never null. */
  function WithOptional(members: map<string, Value>, key: string, v: Option<Value>): map<string, Value> {
    if v.Some? then members[key := v.value] else members
  }

  function OptionalString(s: Option<string>): Option<Value> {
    if s.Some? then Some(String(s.value)) else None
  }

  function OptionalNumber(n: Option<U16>): Option<Value> {
    if n.Some? then Some(Integer(n.value)) else None
  }

  function RequiredFields(f: Fields): map<string, Value> {
    map[
      "req_id" := String(Hex.Text(f.reqId)),
      "op_type" := String(OpName(f.opType)),
      "service" := String(f.service),
      "method" := String(f.verb),
      "endpoint" := String(f.endpoint),
      "params" := f.params,
      "timestamp" := Integer(f.timestamp)]
  }

  /** The JSON object of either request record. */
  function FieldsValue(f: Fields): Value {
    Object(WithOptional(RequiredFields(f), "requested_by", OptionalString(f.requestedBy)))
  }

  lemma OpNameInjective(a: OpType, b: OpType)
    requires OpName(a) == OpName(b)
    ensures a == b
  {
    assert |OpName(AuthenticatedRequest)| == 21 && |OpName(ListServices)| == 13 && |OpName(SessionEnd)| == 11;
  }

  lemma WithOptionalLookup(members: map<string, Value>, key: string, v: Option<Value>)
    requires key !in members
    ensures var r := WithOptional(members, key, v);
            && (key in r <==> v.Some?)
            && (v.Some? ==> r[key] == v.value)
            && (forall k :: k in members ==> k in r && r[k] == members[k])
  {
  }

  lemma FieldsValueInjective(f: Fields, g: Fields)
    requires FieldsValue(f) == FieldsValue(g)
    ensures f == g
  {
    var m, n := RequiredFields(f), RequiredFields(g);
    WithOptionalLookup(m, "requested_by", OptionalString(f.requestedBy));
    WithOptionalLookup(n, "requested_by", OptionalString(g.requestedBy));
    assert m["req_id"] == n["req_id"] && m["op_type"] == n["op_type"] && m["service"] == n["service"];
    assert m["method"] == n["method"] && m["endpoint"] == n["endpoint"];
    assert m["params"] == n["params"] && m["timestamp"] == n["timestamp"];
    Hex.TextInjective(f.reqId, g.reqId);
    OpNameInjective(f.opType, g.opType);
  }

  lemma FieldsDomain(f: Fields)
    ensures InDomain(FieldsValue(f)) <==> InDomain(f.params)
  {
    WithOptionalLookup(RequiredFields(f), "requested_by", OptionalString(f.requestedBy));
    assert FieldsValue(f).members["params"] == f.params;
  }

  /** Which key holds which field, under which name: the record's own, and no others. */
  lemma RequestSays(f: Fields)
    ensures var m := FieldsValue(f).members;
      && m.Keys == {"req_id", "op_type", "service", "method", "endpoint", "params", "timestamp"}
                   + (if f.requestedBy.Some? then {"requested_by"} else {})
      && m["req_id"] == String(Hex.Text(f.reqId)) && m["params"] == f.params && m["timestamp"] == Integer(f.timestamp)
      && m["service"] == String(f.service) && m["method"] == String(f.verb) && m["endpoint"] == String(f.endpoint)
      && (f.requestedBy.Some? ==> m["requested_by"] == String(f.requestedBy.value))
      && m["op_type"] == String(match f.opType case AuthenticatedRequest => "authenticated_request"
                                               case ListServices => "list_services" case SessionEnd => "session_end")
  {
  }

  // ---- the text a binding compares -----------------------------------------------

  /** The text the tracker freezes for an approved request. */
  ghost function BindingJson(request: ApprovalRequest): Result<string, ProtocolError> {
    FieldsDomain(request.fields);
    if InDomain(request.fields.params) then Ok(Text(FieldsValue(request.fields))) else Err(UnsupportedValueType)
  }

  /** The text an execute request is compared as. */
  ghost function ExecuteJson(exec: ExecuteRequest): Result<string, ProtocolError> {
    FieldsDomain(exec.fields);
    if InDomain(exec.fields.params) then Ok(Text(FieldsValue(exec.fields))) else Err(OutsideDomain)
  }

  method CanonicalBindingJson(request: ApprovalRequest) returns (r: Result<string, ProtocolError>)
    ensures r == BindingJson(request)
  {
    FieldsDomain(request.fields);
    if !InDomain(request.fields.params) { return Err(UnsupportedValueType); }
    var json := WriteValue(FieldsValue(request.fields), "");
    assert "" + Text(FieldsValue(request.fields)) == Text(FieldsValue(request.fields));
    return Ok(json.value);
  }

  method ToCanonicalString(exec: ExecuteRequest) returns (r: Result<string, ProtocolError>)
    ensures r == ExecuteJson(exec)
  {
    FieldsDomain(exec.fields);
    var json := WriteValue(FieldsValue(exec.fields), "");
    if json.Err? { return Err(OutsideDomain); }
    assert "" + Text(FieldsValue(exec.fields)) == Text(FieldsValue(exec.fields));
    return Ok(json.value);
  }

  /** Equal binding text means the same request, in all eight fields. */
  lemma BindingDetermines(request: ApprovalRequest, exec: ExecuteRequest)
    requires BindingJson(request).Ok? && ExecuteJson(exec).Ok?
    ensures BindingJson(request).value == ExecuteJson(exec).value <==> request.fields == exec.fields
  {
    FieldsDomain(request.fields);
    FieldsDomain(exec.fields);
    if BindingJson(request).value == ExecuteJson(exec).value {
      JsonReader.TextInjective(FieldsValue(request.fields), FieldsValue(exec.fields));
      FieldsValueInjective(request.fields, exec.fields);
    }
  }

  // ---- what signatures cover -----------------------------------------------------

  /** The bytes of "conveyance-approve-v1". */
  const APPROVE_CONTEXT: bytes :=
    [99, 111, 110, 118, 101, 121, 97, 110, 99, 101, 45, 97, 112, 112, 114, 111, 118, 101, 45, 118, 49]

  /** The bytes of "conveyance-execute-v1". */
  const EXECUTE_CONTEXT: bytes :=
    [99, 111, 110, 118, 101, 121, 97, 110, 99, 101, 45, 101, 120, 101, 99, 117, 116, 101, 45, 118, 49]

  function ApprovalValue(r: ApprovalResponse): map<string, Value> {
    WithOptional(
      map["req_id" := String(Hex.Text(r.reqId)),
          "decision" := String(DecisionName(r.decision)),
          "signature" := String(Hex.Text(r.signature))],
      "reason", OptionalString(r.reason))
  }

  function ExecuteValue(r: ExecuteResponse): map<string, Value> {
    WithOptional(
      map["req_id" := String(Hex.Text(r.reqId)),
          "status" := String(StatusName(r.status)),
          "body" := r.body,
          "executed_at" := Integer(r.executedAt),
          "signature" := String(Hex.Text(r.signature))],
      "http_status", OptionalNumber(r.httpStatus))
  }

  /** The context tag, then the canonical JSON of the message without its signature field. */
  ghost function SigningPayload(context: bytes, message: map<string, Value>): Result<bytes, ProtocolError> {
    var value := Object(message - {"signature"});
    if InDomain(value) then Ok(context + Utf8.Encode(Text(value))) else Err(OutsideDomain)
  }

  lemma PayloadDetermines(context: bytes, m: map<string, Value>, n: map<string, Value>)
    requires SigningPayload(context, m).Ok? && SigningPayload(context, m) == SigningPayload(context, n)
    ensures m - {"signature"} == n - {"signature"}
  {
    var v, w := Object(m - {"signature"}), Object(n - {"signature"});
    var a, b := Utf8.Encode(Text(v)), Utf8.Encode(Text(w));
    assert (context + a)[|context|..] == a && (context + b)[|context|..] == b;
    Utf8.EncodeInjective(Text(v), Text(w));
    JsonReader.TextInjective(v, w);
  }

  lemma DecisionNameInjective(a: Decision, b: Decision)
    requires DecisionName(a) == DecisionName(b)
    ensures a == b
  {
    assert |DecisionName(Approved)| == 8 && |DecisionName(Denied)| == 6 && |DecisionName(Expired)| == 7;
  }

  lemma StatusNameInjective(a: Status, b: Status)
    requires StatusName(a) == StatusName(b)
    ensures a == b
  {
    assert |StatusName(StatusOk)| == 2 && |StatusName(StatusError)| == 5 && |StatusName(StatusDenied)| == 6;
  }

  lemma ApprovalCore(r: ApprovalResponse)
    ensures ApprovalValue(r) - {"signature"}
         == WithOptional(map["req_id" := String(Hex.Text(r.reqId)), "decision" := String(DecisionName(r.decision))],
                         "reason", OptionalString(r.reason))
  {
  }

  /** What an approval signature is made over. */
  lemma ApprovalSays(r: ApprovalResponse)
    ensures var m := ApprovalValue(r) - {"signature"};
      && m.Keys == {"req_id", "decision"} + (if r.reason.Some? then {"reason"} else {})
      && m["req_id"] == String(Hex.Text(r.reqId))
      && m["decision"] == String(match r.decision case Approved => "approved" case Denied => "denied"
                                                  case Expired => "expired")
      && (r.reason.Some? ==> m["reason"] == String(r.reason.value))
  {
  }

  lemma ApprovalCoreDetermines(r: ApprovalResponse, q: ApprovalResponse)
    requires ApprovalValue(r) - {"signature"} == ApprovalValue(q) - {"signature"}
    ensures r == q.(signature := r.signature)
  {
    var m := map["req_id" := String(Hex.Text(r.reqId)), "decision" := String(DecisionName(r.decision))];
    var n := map["req_id" := String(Hex.Text(q.reqId)), "decision" := String(DecisionName(q.decision))];
    ApprovalCore(r);
    ApprovalCore(q);
    WithOptionalLookup(m, "reason", OptionalString(r.reason));
    WithOptionalLookup(n, "reason", OptionalString(q.reason));
    assert m["req_id"] == n["req_id"] && m["decision"] == n["decision"];
    Hex.TextInjective(r.reqId, q.reqId);
    DecisionNameInjective(r.decision, q.decision);
  }

  /** An approval signature covers every field but itself, and an absent reason is not an empty one. */
  lemma ApprovalPayloadCovers(r: ApprovalResponse, q: ApprovalResponse)
    ensures SigningPayload(APPROVE_CONTEXT, ApprovalValue(r)).Ok?
    ensures SigningPayload(APPROVE_CONTEXT, ApprovalValue(r)) == SigningPayload(APPROVE_CONTEXT, ApprovalValue(q))
       <==> r == q.(signature := r.signature)
  {
    assert InDomain(Object(ApprovalValue(r) - {"signature"}));
    if SigningPayload(APPROVE_CONTEXT, ApprovalValue(r)) == SigningPayload(APPROVE_CONTEXT, ApprovalValue(q)) {
      PayloadDetermines(APPROVE_CONTEXT, ApprovalValue(r), ApprovalValue(q));
      ApprovalCoreDetermines(r, q);
    }
    if r == q.(signature := r.signature) {
      ApprovalCore(r);
      ApprovalCore(q);
    }
  }

  function ExecuteRequired(r: ExecuteResponse): map<string, Value> {
    map["req_id" := String(Hex.Text(r.reqId)),
        "status" := String(StatusName(r.status)),
        "body" := r.body,
        "executed_at" := Integer(r.executedAt)]
  }

  lemma ExecuteCore(r: ExecuteResponse)
    ensures ExecuteValue(r) - {"signature"}
         == WithOptional(ExecuteRequired(r), "http_status", OptionalNumber(r.httpStatus))
  {
  }

  /** What an execute signature is made over. */
  lemma ExecuteSays(r: ExecuteResponse)
    ensures var m := ExecuteValue(r) - {"signature"};
      && m.Keys == {"req_id", "status", "body", "executed_at"} + (if r.httpStatus.Some? then {"http_status"} else {})
      && m["req_id"] == String(Hex.Text(r.reqId)) && m["body"] == r.body && m["executed_at"] == Integer(r.executedAt)
      && m["status"] == String(match r.status case StatusOk => "ok" case StatusError => "error"
                                              case StatusDenied => "denied")
      && (r.httpStatus.Some? ==> m["http_status"] == Integer(r.httpStatus.value))
  {
  }

  /** The context tags are these words. */
  lemma ContextsSay()
    ensures |APPROVE_CONTEXT| == |"conveyance-approve-v1"| && |EXECUTE_CONTEXT| == |"conveyance-execute-v1"|
    ensures forall i :: 0 <= i < |APPROVE_CONTEXT| ==> APPROVE_CONTEXT[i] == "conveyance-approve-v1"[i] as int
    ensures forall i :: 0 <= i < |EXECUTE_CONTEXT| ==> EXECUTE_CONTEXT[i] == "conveyance-execute-v1"[i] as int
  {
  }

  lemma ExecuteCoreDetermines(r: ExecuteResponse, q: ExecuteResponse)
    requires ExecuteValue(r) - {"signature"} == ExecuteValue(q) - {"signature"}
    ensures r == q.(signature := r.signature)
  {
    var m, n := ExecuteRequired(r), ExecuteRequired(q);
    ExecuteCore(r);
    ExecuteCore(q);
    WithOptionalLookup(m, "http_status", OptionalNumber(r.httpStatus));
    WithOptionalLookup(n, "http_status", OptionalNumber(q.httpStatus));
    assert m["req_id"] == n["req_id"] && m["status"] == n["status"];
    assert m["body"] == n["body"] && m["executed_at"] == n["executed_at"];
    Hex.TextInjective(r.reqId, q.reqId);
    StatusNameInjective(r.status, q.status);
  }

  lemma ExecuteDomain(r: ExecuteResponse)
    ensures InDomain(Object(ExecuteValue(r) - {"signature"})) <==> InDomain(r.body)
  {
    ExecuteCore(r);
    WithOptionalLookup(ExecuteRequired(r), "http_status", OptionalNumber(r.httpStatus));
    assert (ExecuteValue(r) - {"signature"})["body"] == r.body;
  }

  /** An execute signature exists exactly for a float-free body and covers every field but itself. */
  lemma ExecutePayloadCovers(r: ExecuteResponse, q: ExecuteResponse)
    ensures SigningPayload(EXECUTE_CONTEXT, ExecuteValue(r)).Ok? <==> InDomain(r.body)
    ensures InDomain(r.body) ==>
      (SigningPayload(EXECUTE_CONTEXT, ExecuteValue(r)) == SigningPayload(EXECUTE_CONTEXT, ExecuteValue(q))
       <==> r == q.(signature := r.signature))
  {
    ExecuteDomain(r);
    ExecuteCore(r);
    ExecuteCore(q);
    if && InDomain(r.body)
       && SigningPayload(EXECUTE_CONTEXT, ExecuteValue(r)) == SigningPayload(EXECUTE_CONTEXT, ExecuteValue(q)) {
      PayloadDetermines(EXECUTE_CONTEXT, ExecuteValue(r), ExecuteValue(q));
      ExecuteCoreDetermines(r, q);
    }
  }

  /** The context tags keep the two kinds of signature apart: no bytes are a preimage of both. */
  lemma ContextsSeparate(m: map<string, Value>, n: map<string, Value>)
    requires SigningPayload(APPROVE_CONTEXT, m).Ok? && SigningPayload(EXECUTE_CONTEXT, n).Ok?
    ensures SigningPayload(APPROVE_CONTEXT, m) != SigningPayload(EXECUTE_CONTEXT, n)
  {
    assert SigningPayload(APPROVE_CONTEXT, m).value[11] == 97;
    assert SigningPayload(EXECUTE_CONTEXT, n).value[11] == 101;
  }
}
