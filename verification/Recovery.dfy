/**
 The crash-recovery sweep of crates/conveyance-daemon/src/recovery.rs: at startup every
 request id whose newest row is not terminal is closed with a `request_timeout` row, in
 the order the ids first appear.
 */
module Recovery {
  import opened Wrappers
  import opened Message
  import opened HashChain
  import Json
  import JsonReader

  const LIFECYCLE_REQ_ID: ReqId := [0, 0, 0, 0, 0, 0, 0, 0, 0, 0, 0, 0, 0, 0, 0, 0]

  const CRASHED_BEFORE_TERMINAL := "crashed_before_terminal"

  predicate Terminal(eventType: string) {
    eventType == "execute_result" || eventType == "approval_denied" || eventType == "request_timeout"
  }

  // ---- what is open in a log -----------------------------------------------------

  /** The type of the newest row of an id; empty when it has none. */
  function LastType(events: seq<LogEvent>, id: ReqId): string {
    if events == [] then ""
    else
      var last := events[|events| - 1];
      if last.reqId == id then last.eventType else LastType(events[..|events| - 1], id)
  }

  predicate IsFirst(events: seq<LogEvent>, i: nat)
    requires i < |events|
  {
    forall j :: 0 <= j < i ==> events[j].reqId != events[i].reqId
  }

  /** Row i is the first of an id that is neither the lifecycle id nor closed. */
  predicate OpenAt(events: seq<LogEvent>, i: nat)
    requires i < |events|
  {
    && IsFirst(events, i) && events[i].reqId != LIFECYCLE_REQ_ID
    && !Terminal(LastType(events, events[i].reqId))
  }

  datatype Orphan = Orphan(index: nat, reqId: ReqId, lastType: string)

  function OrphanAt(events: seq<LogEvent>, i: nat): Orphan
    requires i < |events|
  {
    Orphan(i, events[i].reqId, LastType(events, events[i].reqId))
  }

  function OrphansFrom(events: seq<LogEvent>, i: nat): seq<Orphan>
    requires i <= |events|
    decreases |events| - i
  {
    if i == |events| then []
    else if OpenAt(events, i) then [OrphanAt(events, i)] + OrphansFrom(events, i + 1)
    else OrphansFrom(events, i + 1)
  }

  /** The open ids of a log in order of first appearance. */
  function Orphans(events: seq<LogEvent>): seq<Orphan> {
    OrphansFrom(events, 0)
  }

  function PayloadValue(lastType: string): (v: Json.Value)
    ensures v.Object? && Json.InDomain(v)
  {
    Json.Object(map["reason" := Json.String(CRASHED_BEFORE_TERMINAL), "orphaned_after" := Json.String(lastType)])
  }

  ghost function Closing(o: Orphan, now: I64): LogEvent {
    LogEvent(o.reqId, "request_timeout", Json.Text(PayloadValue(o.lastType)), now)
  }

  /** What a closing row says: it timed out, crashed before its end, behind a row of this type. */
  lemma ClosingSays(o: Orphan, now: I64)
    ensures var e := Closing(o, now);
      && e.reqId == o.reqId && e.eventType == "request_timeout" && e.timestamp == now
      && JsonReader.Parse(e.payloadJson) == JsonReader.Got(PayloadValue(o.lastType), "")
    ensures var m := PayloadValue(o.lastType).members;
      && m.Keys == {"reason", "orphaned_after"}
      && m["reason"] == Json.String("crashed_before_terminal") && m["orphaned_after"] == Json.String(o.lastType)
  {
    ReadsBack(PayloadValue(o.lastType));
  }

  ghost function Closings(orphans: seq<Orphan>, now: I64): seq<LogEvent> {
    seq(|orphans|, i requires 0 <= i < |orphans| => Closing(orphans[i], now))
  }

  // ---- orphans in order ----------------------------------------------------------

  predicate Ascending(os: seq<Orphan>) {
    forall i, j :: 0 <= i < j < |os| ==> os[i].index < os[j].index
  }

  predicate OpenFrom(events: seq<LogEvent>, i: nat, o: Orphan) {
    i <= o.index < |events| && OpenAt(events, o.index) && o == OrphanAt(events, o.index)
  }

  lemma {:induction false} OrphansHold(events: seq<LogEvent>, i: nat, o: Orphan)
    requires i <= |events|
    ensures o in OrphansFrom(events, i) <==> OpenFrom(events, i, o)
    decreases |events| - i
  {
    if i < |events| { OrphansHold(events, i + 1, o); }
  }

  lemma {:induction false} OrphansAscend(events: seq<LogEvent>, i: nat)
    requires i <= |events|
    ensures Ascending(OrphansFrom(events, i))
    decreases |events| - i
  {
    if i < |events| {
      var rest := OrphansFrom(events, i + 1);
      OrphansAscend(events, i + 1);
      forall k | 0 <= k < |rest| ensures i < rest[k].index {
        OrphansHold(events, i + 1, rest[k]);
      }
    }
  }

  /** The orphans of a log are its open ids, each once, ascending. */
  lemma OrphansFromIs(events: seq<LogEvent>, i: nat)
    requires i <= |events|
    ensures Ascending(OrphansFrom(events, i))
    ensures forall o :: o in OrphansFrom(events, i) <==> OpenFrom(events, i, o)
  {
    OrphansAscend(events, i);
    forall o ensures o in OrphansFrom(events, i) <==> OpenFrom(events, i, o) {
      OrphansHold(events, i, o);
    }
  }

  lemma {:induction false} AscendingUnique(a: seq<Orphan>, b: seq<Orphan>)
    requires Ascending(a) && Ascending(b) && forall o :: o in a <==> o in b
    ensures a == b
    decreases |a|
  {
    assert b != [] ==> b[0] in b;
    assert a != [] ==> a[0] in a;
    if a != [] {
      forall o ensures o in a[1..] <==> o in b[1..] {
        assert o in a[1..] <==> o in a && o.index != a[0].index;
        assert o in b[1..] <==> o in b && o.index != b[0].index;
      }
      AscendingUnique(a[1..], b[1..]);
    }
  }

  // ---- the sweep -----------------------------------------------------------------

  ghost predicate Summary(events: seq<LogEvent>, id: ReqId, entry: (nat, string)) {
    && entry.0 < |events| && events[entry.0].reqId == id && IsFirst(events, entry.0)
    && entry.1 == LastType(events, id)
  }

  /** First index and newest type of every id of a log. */
  ghost predicate Summarizes(newest: map<ReqId, (nat, string)>, events: seq<LogEvent>) {
    && (forall i :: 0 <= i < |events| ==> events[i].reqId in newest)
    && (forall id :: id in newest ==> Summary(events, id, newest[id]))
  }

  lemma SummaryKept(events: seq<LogEvent>, e: LogEvent, id: ReqId, entry: (nat, string))
    requires Summary(events, id, entry)
    ensures Summary(events + [e], id, if e.reqId == id then (entry.0, e.eventType) else entry)
  {
    assert (events + [e])[..|events|] == events;
  }

  method Newest(events: seq<LogEvent>) returns (newest: map<ReqId, (nat, string)>)
    ensures Summarizes(newest, events)
  {
    newest := map[];
    for i := 0 to |events|
      invariant Summarizes(newest, events[..i])
    {
      var e, was := events[i], newest;
      var first := if e.reqId in newest then newest[e.reqId].0 else i;
      newest := newest[e.reqId := (first, e.eventType)];
      assert events[..i + 1] == events[..i] + [e];
      forall id | id in newest ensures Summary(events[..i + 1], id, newest[id]) {
        if id in was { SummaryKept(events[..i], e, id, was[id]); }
      }
    }
    assert events[..|events|] == events;
  }

  /** Row o.index is the first of a request's id and o sums that id up. */
  ghost predicate SumsUp(events: seq<LogEvent>, o: Orphan) {
    Summary(events, o.reqId, (o.index, o.lastType)) && o.reqId != LIFECYCLE_REQ_ID
  }

  predicate DistinctIndexes(orphans: seq<Orphan>) {
    forall i, j :: 0 <= i < j < |orphans| ==> orphans[i].index != orphans[j].index
  }

  /** What was collected of the ids in `taken`. */
  ghost predicate Collected(events: seq<LogEvent>, taken: set<ReqId>, orphans: seq<Orphan>) {
    && DistinctIndexes(orphans)
    && forall o :: o in orphans <==> o.reqId in taken && SumsUp(events, o)
  }

  lemma CollectOne(events: seq<LogEvent>, taken: set<ReqId>, orphans: seq<Orphan>, id: ReqId, entry: (nat, string),
                   more: seq<Orphan>)
    requires Collected(events, taken, orphans) && id !in taken && Summary(events, id, entry)
    requires more == if id == LIFECYCLE_REQ_ID then orphans else orphans + [Orphan(entry.0, id, entry.1)]
    ensures Collected(events, taken + {id}, more)
  {
    if id != LIFECYCLE_REQ_ID {
      var one := Orphan(entry.0, id, entry.1);
      forall i | 0 <= i < |orphans| ensures orphans[i].index != one.index {
        assert orphans[i] in orphans;
      }
      forall o: Orphan | o.reqId == id && SumsUp(events, o) ensures o == one {
      }
    }
  }

  lemma MoveOne<T>(all: set<T>, taken: set<T>, left: set<T>, x: T)
    requires taken + left == all && taken !! left && x in left
    ensures taken + {x} + (left - {x}) == all && taken + {x} !! left - {x}
  {
  }

  /** The map's entries in whatever order it yields them, without the lifecycle id. */
  method Collect(newest: map<ReqId, (nat, string)>, events: seq<LogEvent>) returns (orphans: seq<Orphan>)
    requires Summarizes(newest, events)
    ensures Collected(events, newest.Keys, orphans)
  {
    orphans := [];
    var left := newest.Keys;
    ghost var taken := {};
    while left != {}
      invariant taken + left == newest.Keys && taken !! left
      invariant Collected(events, taken, orphans)
      decreases |left|
    {
      var id :| id in left;
      var entry := newest[id];
      var more := if id == LIFECYCLE_REQ_ID then orphans else orphans + [Orphan(entry.0, id, entry.1)];
      CollectOne(events, taken, orphans, id, entry, more);
      MoveOne(newest.Keys, taken, left, id);
      left, taken, orphans := left - {id}, taken + {id}, more;
    }
    assert taken == newest.Keys;
  }

  function Insert(o: Orphan, os: seq<Orphan>): seq<Orphan> {
    if os == [] || o.index < os[0].index then [o] + os else [os[0]] + Insert(o, os[1..])
  }

  lemma {:induction false} InsertSorts(o: Orphan, os: seq<Orphan>)
    requires Ascending(os) && forall i :: 0 <= i < |os| ==> os[i].index != o.index
    ensures Ascending(Insert(o, os))
    ensures forall x :: x in Insert(o, os) <==> x == o || x in os
    decreases |os|
  {
    if os != [] && os[0].index < o.index {
      InsertSorts(o, os[1..]);
      assert forall x :: x in os <==> x == os[0] || x in os[1..];
      var rest := Insert(o, os[1..]);
      forall k | 0 <= k < |rest| ensures os[0].index < rest[k].index {
        assert rest[k] in rest;
      }
    }
  }

  method SortByIndex(orphans: seq<Orphan>) returns (sorted: seq<Orphan>)
    requires DistinctIndexes(orphans)
    ensures Ascending(sorted) && forall o :: o in sorted <==> o in orphans
  {
    sorted := [];
    for i := 0 to |orphans|
      invariant Ascending(sorted) && forall o :: o in sorted <==> o in orphans[..i]
    {
      forall k | 0 <= k < |sorted| ensures sorted[k].index != orphans[i].index {
        assert sorted[k] in orphans[..i];
      }
      InsertSorts(orphans[i], sorted);
      sorted := Insert(orphans[i], sorted);
    }
  }

  method Retain(sorted: seq<Orphan>) returns (kept: seq<Orphan>)
    requires Ascending(sorted)
    ensures Ascending(kept) && forall o :: o in kept <==> o in sorted && !Terminal(o.lastType)
  {
    kept := [];
    for i := 0 to |sorted|
      invariant Ascending(kept) && forall o :: o in kept <==> o in sorted[..i] && !Terminal(o.lastType)
    {
      if !Terminal(sorted[i].lastType) {
        forall k | 0 <= k < |kept| ensures kept[k].index < sorted[i].index {
          assert kept[k] in sorted[..i];
        }
        kept := kept + [sorted[i]];
      }
    }
  }

  /** Whatever order the map yields its entries in, the orphans come out in log order. */
  method FindOrphans(events: seq<LogEvent>) returns (orphans: seq<Orphan>)
    ensures orphans == Orphans(events)
  {
    var newest := Newest(events);
    var collected := Collect(newest, events);
    var sorted := SortByIndex(collected);
    orphans := Retain(sorted);
    OrphansFromIs(events, 0);
    forall o ensures o in orphans <==> o in Orphans(events) {
      if SumsUp(events, o) { assert events[o.index].reqId in newest; }
    }
    AscendingUnique(orphans, Orphans(events));
  }

  method PayloadJson(lastType: string) returns (payload: string)
    ensures payload == Json.Text(PayloadValue(lastType))
  {
    var text := Json.WriteValue(PayloadValue(lastType), "");
    assert "" + Json.Text(PayloadValue(lastType)) == Json.Text(PayloadValue(lastType));
    payload := text.value;
  }

  /** Rows were only added, and a verifying chain still verifies. */
  ghost predicate Grown(sha: Hash, before: seq<ChainRow>, after: seq<ChainRow>) {
    before <= after && (Verifies(sha, before) ==> Verifies(sha, after))
  }

  lemma GrownTwice(sha: Hash, a: seq<ChainRow>, b: seq<ChainRow>, c: seq<ChainRow>)
    requires Grown(sha, a, b) && Grown(sha, b, c)
    ensures Grown(sha, a, c)
  {
  }

  /** One closing row, if the log takes it. */
  method Close(log: LogDb, o: Orphan, now: I64, stores: bool) returns (stored: bool)
    modifies log
    ensures stored == stores
    ensures Events(log.rows) == if stored then old(Events(log.rows)) + [Closing(o, now)] else old(Events(log.rows))
    ensures Grown(log.sha, old(log.rows), log.rows)
  {
    var payload := PayloadJson(o.lastType);
    ghost var rows := log.rows;
    var r := log.Append(LogEvent(o.reqId, "request_timeout", payload, now), stores);
    if r.Ok? { EventsAppend(rows, r.value); }
    return r.Ok?;
  }

  ghost predicate AllStored(n: nat, stores: nat -> bool) {
    forall i: nat :: i < n ==> stores(i)
  }

  lemma OneMoreStored(n: nat, stores: nat -> bool)
    requires AllStored(n, stores) && stores(n)
    ensures AllStored(n + 1, stores)
  {
  }

  /** The rows a sweep gets through before the log refuses one. */
  ghost predicate SweptUpto(n: nat, total: nat, stores: nat -> bool) {
    n <= total && AllStored(n, stores) && (n < total ==> !stores(n))
  }

  /** The log with the first n closing rows. */
  ghost function Closed(before: seq<LogEvent>, orphans: seq<Orphan>, n: nat, now: I64): seq<LogEvent>
    requires n <= |orphans|
  {
    before + Closings(orphans[..n], now)
  }

  /** The closing rows in order, up to the first the log refuses. */
  method CloseAll(log: LogDb, orphans: seq<Orphan>, now: I64, stores: nat -> bool) returns (swept: nat)
    modifies log
    ensures SweptUpto(swept, |orphans|, stores)
    ensures Events(log.rows) == Closed(old(Events(log.rows)), orphans, swept, now)
    ensures Grown(log.sha, old(log.rows), log.rows)
  {
    ghost var before := Events(log.rows);
    swept := 0;
    ClosedNone(before, orphans, now);
    while swept < |orphans|
      invariant swept <= |orphans| && AllStored(swept, stores)
      invariant Events(log.rows) == Closed(before, orphans, swept, now)
      invariant Grown(log.sha, old(log.rows), log.rows)
    {
      ClosedStep(before, orphans, swept, now);
      ghost var rows := log.rows;
      var stored := Close(log, orphans[swept], now, stores(swept));
      GrownTwice(log.sha, old(log.rows), rows, log.rows);
      if !stored { return; }
      OneMoreStored(swept, stores);
      swept := swept + 1;
    }
  }

  lemma ClosedStep(before: seq<LogEvent>, orphans: seq<Orphan>, n: nat, now: I64)
    requires n < |orphans|
    ensures Closed(before, orphans, n + 1, now) == Closed(before, orphans, n, now) + [Closing(orphans[n], now)]
  {
    ClosingsAppend(before, orphans, n, now);
  }

  lemma ClosedNone(before: seq<LogEvent>, orphans: seq<Orphan>, now: I64)
    ensures Closed(before, orphans, 0, now) == before
  {
  }

  /**
   `stores` says which of the sweep's rows the log takes. The first it refuses ends the sweep
   with an error, the rows before it standing.
   */
  method SweepOrphanedRequests(log: LogDb, now: I64, stores: nat -> bool)
    returns (r: Result<nat, StorageError>, swept: nat)
    modifies log
    ensures SweptUpto(swept, |Orphans(old(Events(log.rows)))|, stores)
    ensures Events(log.rows) == Closed(old(Events(log.rows)), Orphans(old(Events(log.rows))), swept, now)
    ensures r == if swept == |Orphans(old(Events(log.rows)))| then Ok(swept) else Err(StorageFailed)
    ensures Grown(log.sha, old(log.rows), log.rows)
  {
    var orphans := FindOrphans(Events(log.rows));
    swept := CloseAll(log, orphans, now, stores);
    r := if swept == |orphans| then Ok(swept) else Err(StorageFailed);
  }

  lemma ClosingsAppend(before: seq<LogEvent>, orphans: seq<Orphan>, n: nat, now: I64)
    requires n < |orphans|
    ensures before + Closings(orphans[..n + 1], now)
         == before + Closings(orphans[..n], now) + [Closing(orphans[n], now)]
  {
  }

  // ---- sweeps compose ------------------------------------------------------------

  lemma LastTypeAppend(events: seq<LogEvent>, e: LogEvent, id: ReqId)
    ensures LastType(events + [e], id) == if e.reqId == id then e.eventType else LastType(events, id)
  {
    assert (events + [e])[..|events|] == events;
  }

  /** A terminal row of an id the log knows. */
  predicate Closes(e: LogEvent, events: seq<LogEvent>) {
    Terminal(e.eventType) && exists j :: 0 <= j < |events| && events[j].reqId == e.reqId
  }

  /** A closing row takes its own id out and leaves the other ids as they are. */
  lemma OpenAfter(events: seq<LogEvent>, e: LogEvent, i: nat)
    requires Closes(e, events) && i <= |events|
    ensures OpenAt(events + [e], i) <==> i < |events| && OpenAt(events, i) && events[i].reqId != e.reqId
    ensures i < |events| && events[i].reqId != e.reqId ==> OrphanAt(events + [e], i) == OrphanAt(events, i)
  {
    if i < |events| {
      LastTypeAppend(events, e, events[i].reqId);
      assert forall j :: 0 <= j <= i ==> (events + [e])[j] == events[j];
    }
  }

  lemma {:induction false} RestFrom(events: seq<LogEvent>, e: LogEvent, first: nat, i: nat)
    requires Closes(e, events) && first < i <= |events| && events[first].reqId == e.reqId
    ensures OrphansFrom(events + [e], i) == OrphansFrom(events, i)
    decreases |events| - i
  {
    OpenAfter(events, e, i);
    if i < |events| { RestFrom(events, e, first, i + 1); }
  }

  lemma {:induction false} CloseFirst(events: seq<LogEvent>, e: LogEvent, i: nat)
    requires i <= |events| && OrphansFrom(events, i) != [] && OrphansFrom(events, i)[0].reqId == e.reqId
    requires Closes(e, events)
    ensures OrphansFrom(events + [e], i) == OrphansFrom(events, i)[1..]
    decreases |events| - i
  {
    OpenAfter(events, e, i);
    if OpenAt(events, i) { RestFrom(events, e, i, i + 1); } else { CloseFirst(events, e, i + 1); }
  }

  /**
   A sweep cut off after any n of its rows is taken up by the next one: what is open then is
   what the first sweep had not reached. With all rows written (n at its largest) nothing is
   open, so a second sweep appends nothing.
   */
  lemma {:induction false} SweepResumes(events: seq<LogEvent>, n: nat, now: I64)
    requires n <= |Orphans(events)|
    ensures Orphans(events + Closings(Orphans(events)[..n], now)) == Orphans(events)[n..]
    decreases n
  {
    var os := Orphans(events);
    if n == 0 {
      assert events + Closings(os[..0], now) == events;
    } else {
      SweepResumes(events, n - 1, now);
      ClosingsAppend(events, os, n - 1, now);
      var so := events + Closings(os[..n - 1], now);
      OrphansFromIs(so, 0);
      assert Orphans(so)[0] == os[n - 1] && Orphans(so)[0] in Orphans(so);
      CloseFirst(so, Closing(os[n - 1], now), 0);
      assert os[n - 1..][1..] == os[n..];
    }
  }
}
