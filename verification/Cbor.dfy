/**
 The grammar the CBOR preflight of crates/conveyance-protocol/src/message.rs accepts
 (section 3 of RFC 8949, restricted): trees, the bytes they stand for, and a reader from
 bytes to trees that is shown to invert the two. The scanner itself is in `CborScan`.
 */
module Cbor {
  import opened Wrappers
  import Utf8

  const MAX_CBOR_NESTING_DEPTH := 64

  datatype CborError = Malformed | InvalidMap | NestingTooDeep | TrailingData

  /** The additional information of an initial byte and the argument bytes behind it. */
  datatype Head = Head(additional: int, arg: bytes)

  datatype Chunk = Chunk(head: Head, data: bytes)

  /** A string in one piece, or in pieces up to a break. */
  datatype Str = Definite(chunk: Chunk) | Indefinite(chunks: seq<Chunk>)

  /** Arrays and maps carry a count, or run up to a break (None). */
  datatype Item =
    | Int(major: int, head: Head)
    | StringItem(smajor: int, str: Str)
    | Array(acount: Option<Head>, items: seq<Item>)
    | Map(mcount: Option<Head>, entries: seq<Entry>)
    | Simple(additional: int, data: bytes)

  datatype Entry = Entry(key: Str, value: Item)

  // ---- which trees are well formed -----------------------------------------------

  function ArgLength(additional: int): nat {
    if additional == 24 then 1 else if additional == 25 then 2 else if additional == 26 then 4
    else if additional == 27 then 8 else 0
  }

  predicate ValidHead(h: Head) {
    0 <= h.additional <= 27 && |h.arg| == ArgLength(h.additional)
  }

  function BigEndian(bs: bytes): nat {
    if bs == [] then 0 else 256 * BigEndian(bs[..|bs| - 1]) + bs[|bs| - 1]
  }

  /** A u64, minimal or not. */
  function Argument(h: Head): nat
    requires ValidHead(h)
  {
    if h.additional < 24 then h.additional else BigEndian(h.arg)
  }

  predicate ValidChunk(major: int, c: Chunk) {
    ValidHead(c.head) && |c.data| == Argument(c.head) && (major == 3 ==> Utf8.Valid(c.data))
  }

  predicate ValidStr(major: int, s: Str) {
    match s
    case Definite(chunk) => ValidChunk(major, chunk)
    case Indefinite(chunks) => forall i :: 0 <= i < |chunks| ==> ValidChunk(major, chunks[i])
  }

  function Joined(chunks: seq<Chunk>): bytes {
    if chunks == [] then [] else chunks[0].data + Joined(chunks[1..])
  }

  /** The string itself, whatever pieces it came in. */
  function Content(s: Str): bytes {
    if s.Definite? then s.chunk.data else Joined(s.chunks)
  }

  predicate ValidCount(count: Option<Head>, n: nat) {
    count.Some? ==> ValidHead(count.value) && Argument(count.value) == n
  }

  predicate DistinctKeys(entries: seq<Entry>) {
    forall i, j :: 0 <= i < j < |entries| ==> Content(entries[i].key) != Content(entries[j].key)
  }

  predicate Valid(item: Item, depth: nat) {
    depth <= MAX_CBOR_NESTING_DEPTH &&
    match item
    case Int(major, head) => 0 <= major <= 1 && ValidHead(head)
    case StringItem(major, s) => 2 <= major <= 3 && ValidStr(major, s)
    case Array(count, items) =>
      ValidCount(count, |items|) && forall i :: 0 <= i < |items| ==> Valid(items[i], depth + 1)
    case Map(count, entries) =>
      && ValidCount(count, |entries|) && DistinctKeys(entries)
      && forall i :: 0 <= i < |entries| ==> ValidStr(3, entries[i].key) && Valid(entries[i].value, depth + 1)
    case Simple(additional, data) => 20 <= additional <= 27 && |data| == ArgLength(additional)
  }

  // ---- the bytes of a tree -------------------------------------------------------

  const BREAK: byte := 0xFF

  function Initial(major: int, additional: int): bytes {
    if 0 <= 32 * major + additional < 256 then [32 * major + additional] else []
  }

  function HeadBytes(major: int, h: Head): bytes {
    Initial(major, h.additional) + h.arg
  }

  function ChunkBytes(major: int, c: Chunk): bytes {
    HeadBytes(major, c.head) + c.data
  }

  function ChunksBytes(major: int, chunks: seq<Chunk>): bytes {
    if chunks == [] then [BREAK] else ChunkBytes(major, chunks[0]) + ChunksBytes(major, chunks[1..])
  }

  function StrBytes(major: int, s: Str): bytes {
    match s
    case Definite(chunk) => ChunkBytes(major, chunk)
    case Indefinite(chunks) => Initial(major, 31) + ChunksBytes(major, chunks)
  }

  function CountBytes(major: int, count: Option<Head>): bytes {
    if count.Some? then HeadBytes(major, count.value) else Initial(major, 31)
  }

  function End(count: Option<Head>): bytes {
    if count.Some? then [] else [BREAK]
  }

  function Encode(item: Item): bytes
    decreases item
  {
    match item
    case Int(major, head) => HeadBytes(major, head)
    case StringItem(major, s) => StrBytes(major, s)
    case Array(count, items) => CountBytes(4, count) + EncodeItems(items) + End(count)
    case Map(count, entries) => CountBytes(5, count) + EncodeEntries(entries) + End(count)
    case Simple(additional, data) => Initial(7, additional) + data
  }

  function EncodeItems(items: seq<Item>): bytes
    decreases items
  {
    if items == [] then [] else Encode(items[0]) + EncodeItems(items[1..])
  }

  function EncodeEntries(entries: seq<Entry>): bytes
    decreases entries
  {
    if entries == [] then [] else EncodeEntry(entries[0]) + EncodeEntries(entries[1..])
  }

  function EncodeEntry(entry: Entry): bytes
    decreases entry
  {
    StrBytes(3, entry.key) + Encode(entry.value)
  }

  // ---- reading bytes into trees --------------------------------------------------

  datatype Parsed<+T> = Fail(error: CborError) | Got(value: T, rest: bytes) {
    predicate IsFailure() { Fail? }
    function PropagateFailure<U>(): Parsed<U> requires Fail? { Fail(error) }
    function Extract(): (T, bytes) requires Got? { (value, rest) }
  }

  function Take(s: bytes, n: nat): (r: Parsed<bytes>)
    ensures r.Got? ==> |r.rest| == |s| - n
    ensures r != Fail(TrailingData)
  {
    if |s| < n then Fail(Malformed) else Got(s[..n], s[n..])
  }

  /** The argument of an initial byte; None for the indefinite-length mark. */
  function ReadArgument(s: bytes, additional: int): (r: Parsed<Option<Head>>)
    ensures r.Got? ==> |r.rest| <= |s| && (r.value.Some? ==> ValidHead(r.value.value))
    ensures r != Fail(TrailingData)
  {
    if 0 <= additional <= 27 then
      var (arg, rest) :- Take(s, ArgLength(additional));
      Got(Some(Head(additional, arg)), rest)
    else if additional == 31 then Got(None, s)
    else Fail(Malformed)
  }

  function ReadChunk(s: bytes, major: int, head: Head): (r: Parsed<Chunk>)
    requires ValidHead(head)
    ensures r.Got? ==> |r.rest| <= |s|
    ensures r != Fail(TrailingData)
  {
    var (data, rest) :- Take(s, Argument(head));
    if major == 3 && !Utf8.Valid(data) then Fail(Malformed) else Got(Chunk(head, data), rest)
  }

  predicate AtBreak(s: bytes) {
    s != [] && s[0] == BREAK
  }

  function ReadChunks(s: bytes, major: int): (r: Parsed<seq<Chunk>>)
    ensures r.Got? ==> |r.rest| < |s|
    ensures r != Fail(TrailingData)
    decreases |s|
  {
    if AtBreak(s) then Got([], s[1..])
    else if s == [] || s[0] / 32 != major || s[0] % 32 == 31 then Fail(Malformed)
    else
      var (head, s1) :- ReadArgument(s[1..], s[0] % 32);
      if head.None? then Fail(Malformed)
      else
        var (chunk, s2) :- ReadChunk(s1, major, head.value);
        var (chunks, s3) :- ReadChunks(s2, major);
        Got([chunk] + chunks, s3)
  }

  function ReadStr(s: bytes, major: int, additional: int): (r: Parsed<Str>)
    ensures r.Got? ==> |r.rest| <= |s|
    ensures r != Fail(TrailingData)
  {
    var (head, s1) :- ReadArgument(s, additional);
    if head.Some? then
      var (chunk, s2) :- ReadChunk(s1, major, head.value);
      Got(Definite(chunk), s2)
    else
      var (chunks, s2) :- ReadChunks(s1, major);
      Got(Indefinite(chunks), s2)
  }

  function ReadKey(s: bytes): (r: Parsed<Str>)
    ensures r.Got? ==> |r.rest| < |s|
    ensures r != Fail(TrailingData)
  {
    if s == [] then Fail(Malformed)
    else if s[0] / 32 != 3 then Fail(InvalidMap)
    else ReadStr(s[1..], 3, s[0] % 32)
  }

  function ReadItem(s: bytes, depth: nat): (r: Parsed<Item>)
    ensures r.Got? ==> |r.rest| < |s|
    ensures r != Fail(TrailingData)
    decreases |s|, 0
  {
    if depth > MAX_CBOR_NESTING_DEPTH then Fail(NestingTooDeep)
    else if s == [] then Fail(Malformed)
    else
      var major, additional, tail := s[0] / 32, s[0] % 32, s[1..];
      if major <= 1 then
        var (head, rest) :- ReadArgument(tail, additional);
        if head.None? then Fail(Malformed) else Got(Int(major, head.value), rest)
      else if major <= 3 then
        var (str, rest) :- ReadStr(tail, major, additional);
        Got(StringItem(major, str), rest)
      else if major == 4 then ReadArray(tail, additional, depth)
      else if major == 5 then ReadMap(tail, additional, depth)
      else if major == 6 || additional < 20 || additional > 27 then Fail(Malformed)
      else
        var (data, rest) :- Take(tail, ArgLength(additional));
        Got(Simple(additional, data), rest)
  }

  function ReadArray(s: bytes, additional: int, depth: nat): (r: Parsed<Item>)
    ensures r.Got? ==> |r.rest| <= |s|
    ensures r != Fail(TrailingData)
    decreases |s|, 2
  {
    var (count, s1) :- ReadArgument(s, additional);
    var (items, rest) :- ReadItems(s1, CountOf(count), depth + 1);
    Got(Array(count, items), rest)
  }

  function ReadMap(s: bytes, additional: int, depth: nat): (r: Parsed<Item>)
    ensures r.Got? ==> |r.rest| <= |s|
    ensures r != Fail(TrailingData)
    decreases |s|, 2
  {
    var (count, s1) :- ReadArgument(s, additional);
    var (entries, rest) :- ReadEntries(s1, CountOf(count), {}, depth + 1);
    Got(Map(count, entries), rest)
  }

  function CountOf(count: Option<Head>): Option<nat>
    requires count.Some? ==> ValidHead(count.value)
  {
    if count.Some? then Some(Argument(count.value)) else None
  }

  /** The loop is over. */
  predicate Done(s: bytes, left: Option<nat>) {
    if left.Some? then left.value == 0 else AtBreak(s)
  }

  function AfterEnd(s: bytes, left: Option<nat>): bytes
    requires Done(s, left)
  {
    if left.Some? then s else s[1..]
  }

  function OneLess(left: Option<nat>): Option<nat> {
    if left.Some? && left.value > 0 then Some(left.value - 1) else left
  }

  function ReadItems(s: bytes, left: Option<nat>, depth: nat): (r: Parsed<seq<Item>>)
    ensures r.Got? ==> |r.rest| <= |s|
    ensures r != Fail(TrailingData)
    decreases |s|, 1
  {
    if Done(s, left) then Got([], AfterEnd(s, left))
    else
      var (item, s1) :- ReadItem(s, depth);
      var (items, s2) :- ReadItems(s1, OneLess(left), depth);
      Got([item] + items, s2)
  }

  function ReadEntries(s: bytes, left: Option<nat>, seen: set<bytes>, depth: nat): (r: Parsed<seq<Entry>>)
    ensures r.Got? ==> |r.rest| <= |s|
    ensures r != Fail(TrailingData)
    decreases |s|, 1
  {
    if Done(s, left) then Got([], AfterEnd(s, left))
    else
      var (key, s1) :- ReadKey(s);
      if Content(key) in seen then Fail(InvalidMap)
      else if left.None? && AtBreak(s1) then Fail(Malformed)
      else
        var (value, s2) :- ReadItem(s1, depth);
        var (entries, s3) :- ReadEntries(s2, OneLess(left), seen + {Content(key)}, depth);
        Got([Entry(key, value)] + entries, s3)
  }
}
