/**
 The tamper-evident hash chain of crates/conveyance-crypto/src/hashchain.rs and the log
 of crates/conveyance-core/src/storage/logdb.rs that grows it.

 The hash is a parameter, a total function into 32 bytes. Nothing is assumed of it, so
 what a real hash makes unlikely is stated as "or here is the collision".
 */
module HashChain {
  import opened Wrappers
  import opened Message
  import Hex
  import Json
  import JsonReader
  import Utf8

  const GENESIS_PREV_HASH: Digest :=
    [0, 0, 0, 0, 0, 0, 0, 0, 0, 0, 0, 0, 0, 0, 0, 0, 0, 0, 0, 0, 0, 0, 0, 0, 0, 0, 0, 0, 0, 0, 0, 0]

  datatype LogEvent = LogEvent(reqId: ReqId, eventType: string, payloadJson: string, timestamp: I64)

  datatype ChainRow = ChainRow(event: LogEvent, prevHash: Digest, hash: Digest)

  /** Hex text of what was expected and what is stored. */
  datatype ChainIssue =
    | ContentTampered(index: nat, expectedHash: string, storedHash: string)
    | LinkBroken(index: nat, expectedPrev: string, storedPrev: string)

  // ---- what is hashed ------------------------------------------------------------

  function EventValue(e: LogEvent): (v: Json.Value)
    ensures v.Object? && Json.InDomain(v)
  {
    Json.Object(map[
      "event_type" := Json.String(e.eventType),
      "payload_json" := Json.String(e.payloadJson),
      "req_id" := Json.String(Hex.Text(e.reqId)),
      "timestamp" := Json.Integer(e.timestamp)])
  }

  /** The canonical JSON of an event, in bytes. */
  ghost function Content(e: LogEvent): bytes {
    Utf8.Encode(Json.Text(EventValue(e)))
  }

  method EventContentJson(e: LogEvent) returns (content: bytes)
    ensures content == Content(e)
  {
    var reqId := Hex.Encode(e.reqId);
    var value := Json.Object(map[
      "event_type" := Json.String(e.eventType),
      "payload_json" := Json.String(e.payloadJson),
      "req_id" := Json.String(reqId),
      "timestamp" := Json.Integer(e.timestamp)]);
    var text := Json.WriteValue(value, "");
    assert "" + Json.Text(EventValue(e)) == Json.Text(EventValue(e));
    content := Utf8.Encode(text.value);
  }

  lemma BytesInjective(v: Json.Value, w: Json.Value)
    requires Json.InDomain(v) && Json.InDomain(w) && Utf8.Encode(Json.Text(v)) == Utf8.Encode(Json.Text(w))
    ensures v == w
  {
    Utf8.EncodeInjective(Json.Text(v), Json.Text(w));
    JsonReader.TextInjective(v, w);
  }

  lemma EventValueInjective(d: LogEvent, e: LogEvent)
    requires EventValue(d) == EventValue(e)
    ensures d == e
  {
    var m, n := EventValue(d).members, EventValue(e).members;
    assert m["event_type"] == n["event_type"] && m["payload_json"] == n["payload_json"];
    assert m["req_id"] == n["req_id"] && m["timestamp"] == n["timestamp"];
    Hex.TextInjective(d.reqId, e.reqId);
  }

  /** What is hashed of an event: these four members. */
  lemma EventSays(e: LogEvent)
    ensures var m := EventValue(e).members;
      && m.Keys == {"event_type", "payload_json", "req_id", "timestamp"}
      && m["event_type"] == Json.String(e.eventType) && m["payload_json"] == Json.String(e.payloadJson)
      && m["req_id"] == Json.String(Hex.Text(e.reqId)) && m["timestamp"] == Json.Integer(e.timestamp)
  {
  }

  lemma ReadsBack(v: Json.Value)
    requires Json.InDomain(v)
    ensures JsonReader.Parse(Json.Text(v)) == JsonReader.Got(v, "")
  {
    JsonReader.RoundTrip(v, "");
    assert Json.Text(v) + "" == Json.Text(v);
  }

  /** Hashed bytes determine the event, whatever its payload text holds. */
  lemma ContentInjective(d: LogEvent, e: LogEvent)
    requires Content(d) == Content(e)
    ensures d == e
  {
    BytesInjective(EventValue(d), EventValue(e));
    EventValueInjective(d, e);
  }

  ghost function EntryHash(sha: Hash, prev: Digest, e: LogEvent): Digest {
    sha(prev + Content(e))
  }

  method ComputeEntryHash(sha: Hash, prev: Digest, e: LogEvent) returns (h: Digest)
    ensures h == EntryHash(sha, prev, e)
  {
    var content := EventContentJson(e);
    h := sha(prev + content);
  }

  // ---- chains --------------------------------------------------------------------

  function Events(rows: seq<ChainRow>): seq<LogEvent> {
    seq(|rows|, i requires 0 <= i < |rows| => rows[i].event)
  }

  function Head(rows: seq<ChainRow>): Digest {
    if rows == [] then GENESIS_PREV_HASH else rows[|rows| - 1].hash
  }

  /** The row an event becomes behind these rows. */
  ghost function Linked(sha: Hash, rows: seq<ChainRow>, e: LogEvent): ChainRow {
    ChainRow(e, Head(rows), EntryHash(sha, Head(rows), e))
  }

  ghost function Extended(sha: Hash, rows: seq<ChainRow>, e: LogEvent): (longer: seq<ChainRow>)
    ensures Events(longer) == Events(rows) + [e]
  {
    rows + [Linked(sha, rows, e)]
  }

  /** The chain of a sequence of events. */
  ghost function Chain(sha: Hash, events: seq<LogEvent>): (rows: seq<ChainRow>)
    ensures Events(rows) == events
  {
    if events == [] then [] else
      Extended(sha, Chain(sha, events[..|events| - 1]), events[|events| - 1])
  }

  ghost predicate Verifies(sha: Hash, rows: seq<ChainRow>) {
    rows == Chain(sha, Events(rows))
  }

  lemma ChainAppend(sha: Hash, events: seq<LogEvent>, e: LogEvent)
    ensures Chain(sha, events + [e]) == Chain(sha, events) + [Linked(sha, Chain(sha, events), e)]
  {
    assert (events + [e])[..|events|] == events;
  }

  lemma EventsAppend(rows: seq<ChainRow>, row: ChainRow)
    ensures Events(rows + [row]) == Events(rows) + [row.event]
  {
  }

  /** A row behind a verifying chain keeps it verifying exactly when it is the linked one. */
  lemma VerifiesAppend(sha: Hash, rows: seq<ChainRow>, row: ChainRow)
    requires Verifies(sha, rows)
    ensures Verifies(sha, rows + [row]) <==> row == Linked(sha, rows, row.event)
  {
    EventsAppend(rows, row);
    ChainAppend(sha, Events(rows), row.event);
    if Verifies(sha, rows + [row]) { assert (rows + [row])[|rows|] == row; }
  }

  lemma LinkedVerifies(sha: Hash, rows: seq<ChainRow>, e: LogEvent)
    ensures Verifies(sha, rows) ==> Verifies(sha, rows + [Linked(sha, rows, e)])
  {
    if Verifies(sha, rows) { VerifiesAppend(sha, rows, Linked(sha, rows, e)); }
  }

  /** Dropping the newest rows cannot be noticed; dropping others is what `LinkBroken` is for. */
  lemma {:induction false} PrefixVerifies(sha: Hash, rows: seq<ChainRow>, n: nat)
    requires Verifies(sha, rows) && n <= |rows|
    ensures Verifies(sha, rows[..n])
    decreases |rows|
  {
    if n < |rows| {
      var last := |rows| - 1;
      assert Events(rows)[..last] == Events(rows[..last]);
      assert rows[..last] == Chain(sha, Events(rows[..last]));
      PrefixVerifies(sha, rows[..last], n);
      assert rows[..last][..n] == rows[..n];
    } else {
      assert rows[..n] == rows;
    }
  }

  lemma ChainStep(sha: Hash, events: seq<LogEvent>, i: nat)
    requires i < |events|
    ensures var rows := Chain(sha, events[..i]); Chain(sha, events[..i + 1]) == rows + [Linked(sha, rows, events[i])]
  {
    ChainAppend(sha, events[..i], events[i]);
    assert events[..i] + [events[i]] == events[..i + 1];
  }

  method BuildChain(sha: Hash, events: seq<LogEvent>) returns (rows: seq<ChainRow>)
    ensures Events(rows) == events && Verifies(sha, rows)
  {
    rows := [];
    var prev := GENESIS_PREV_HASH;
    for i := 0 to |events|
      invariant rows == Chain(sha, events[..i]) && prev == Head(rows)
    {
      ChainStep(sha, events, i);
      var hash := ComputeEntryHash(sha, prev, events[i]);
      rows := rows + [ChainRow(events[i], prev, hash)];
      prev := hash;
    }
    assert events[..|events|] == events;
  }

  /**
   All rows verify, or the issue is at the first row behind which they do not: its link is
   broken, or its link holds and its hash is not that of its content.
   */
  method VerifyChain(sha: Hash, rows: seq<ChainRow>) returns (r: Result<nat, ChainIssue>)
    ensures r == Ok(|rows|) <==> Verifies(sha, rows)
    ensures r.Ok? ==> r.value == |rows|
    ensures r.Err? ==>
      var i := r.error.index;
      && i < |rows| && Verifies(sha, rows[..i]) && !Verifies(sha, rows[..i + 1])
      && (r.error.LinkBroken? <==> rows[i].prevHash != Head(rows[..i]))
    ensures r.Err? && r.error.LinkBroken? ==>
      var i := r.error.index;
      r.error.expectedPrev == Hex.Text(Head(rows[..i])) && r.error.storedPrev == Hex.Text(rows[i].prevHash)
    ensures r.Err? && r.error.ContentTampered? ==>
      var i := r.error.index;
      && r.error.expectedHash == Hex.Text(EntryHash(sha, Head(rows[..i]), rows[i].event))
      && r.error.storedHash == Hex.Text(rows[i].hash)
  {
    var head := GENESIS_PREV_HASH;
    for index := 0 to |rows|
      invariant Verifies(sha, rows[..index]) && head == Head(rows[..index])
    {
      var row := rows[index];
      VerifiesAppend(sha, rows[..index], row);
      assert rows[..index] + [row] == rows[..index + 1];
      if Verifies(sha, rows) { PrefixVerifies(sha, rows, index + 1); }
      if row.prevHash != head {
        var expected := Hex.Encode(head);
        var stored := Hex.Encode(row.prevHash);
        return Err(LinkBroken(index, expected, stored));
      }
      var recomputed := ComputeEntryHash(sha, row.prevHash, row.event);
      if recomputed != row.hash {
        var expected := Hex.Encode(recomputed);
        var stored := Hex.Encode(row.hash);
        return Err(ContentTampered(index, expected, stored));
      }
      head := row.hash;
    }
    assert rows[..|rows|] == rows;
    return Ok(|rows|);
  }

  // ---- the head commits to the whole log -----------------------------------------

  lemma EntryDetermines(sha: Hash, p: Digest, d: LogEvent, q: Digest, e: LogEvent) returns (x: bytes, y: bytes)
    requires EntryHash(sha, p, d) == EntryHash(sha, q, e)
    ensures (p == q && d == e) || (x != y && sha(x) == sha(y))
  {
    x, y := p + Content(d), q + Content(e);
    if x == y {
      assert p == x[..32] && q == y[..32] && Content(d) == x[32..] && Content(e) == y[32..];
      ContentInjective(d, e);
    }
  }

  /**
   Two verified chains with the same last hash hold the same events, or two distinct inputs
   with one hash can be named, or (only when their lengths differ) an input hashing to the
   32 zero bytes.
   */
  lemma {:induction false} HeadDetermines(sha: Hash, a: seq<ChainRow>, b: seq<ChainRow>) returns (x: bytes, y: bytes)
    requires Verifies(sha, a) && Verifies(sha, b) && Head(a) == Head(b)
    ensures a == b || (x != y && sha(x) == sha(y)) || (|a| != |b| && sha(x) == GENESIS_PREV_HASH)
    decreases |a|
  {
    x, y := [], [];
    if a == [] && b == [] {
    } else if a == [] {
      x := LastInput(sha, b);
    } else if b == [] {
      x := LastInput(sha, a);
    } else {
      var m, n := |a| - 1, |b| - 1;
      SplitLast(sha, a);
      SplitLast(sha, b);
      x, y := EntryDetermines(sha, Head(a[..m]), a[m].event, Head(b[..n]), b[n].event);
      if !(x != y && sha(x) == sha(y)) {
        x, y := HeadDetermines(sha, a[..m], b[..n]);
        assert a == a[..m] + [a[m]] && b == b[..n] + [b[n]];
      }
    }
  }

  lemma SplitLast(sha: Hash, rows: seq<ChainRow>)
    requires rows != [] && Verifies(sha, rows)
    ensures var n := |rows| - 1; Verifies(sha, rows[..n]) && rows[n] == Linked(sha, rows[..n], rows[n].event)
  {
    var n := |rows| - 1;
    PrefixVerifies(sha, rows, n);
    VerifiesAppend(sha, rows[..n], rows[n]);
    assert rows == rows[..n] + [rows[n]];
  }

  lemma LastInput(sha: Hash, rows: seq<ChainRow>) returns (x: bytes)
    requires rows != [] && Verifies(sha, rows)
    ensures sha(x) == Head(rows)
  {
    SplitLast(sha, rows);
    x := Head(rows[..|rows| - 1]) + Content(rows[|rows| - 1].event);
  }

  // ---- the log -------------------------------------------------------------------

  datatype StorageError = StorageFailed

  /** An append-only file of rows. */
  class LogDb {
    const sha: Hash
    var rows: seq<ChainRow>

    constructor (sha: Hash)
      ensures this.sha == sha && rows == []
    {
      this.sha := sha;
      rows := [];
    }

    /** All or nothing: `stores` says whether the transaction goes through. */
    method Append(e: LogEvent, stores: bool) returns (r: Result<ChainRow, StorageError>)
      modifies this
      ensures stores ==> r == Ok(Linked(sha, old(rows), e)) && rows == old(rows) + [r.value]
      ensures !stores ==> r == Err(StorageFailed) && rows == old(rows)
      ensures old(Verifies(sha, rows)) ==> Verifies(sha, rows)
    {
      if !stores { return Err(StorageFailed); }
      LinkedVerifies(sha, rows, e);
      var prev := Head(rows);
      var hash := ComputeEntryHash(sha, prev, e);
      var row := ChainRow(e, prev, hash);
      rows := rows + [row];
      return Ok(row);
    }
  }
}
