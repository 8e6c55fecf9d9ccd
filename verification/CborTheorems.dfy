/** Reading and encoding are inverse, so the reader accepts exactly the encodings of valid trees. */
module CborTheorems {
  import opened Wrappers
  import opened Cbor

  lemma InitialByte(s: bytes)
    requires s != []
    ensures s == Initial(s[0] / 32, s[0] % 32) + s[1..]
  {
  }

  // ---- what the reader returns is valid and encodes to what it consumed ------------

  lemma ArgumentSound(s: bytes, additional: int)
    requires ReadArgument(s, additional).Got?
    ensures var r := ReadArgument(s, additional);
      if r.value.Some? then r.value.value.additional == additional && s == r.value.value.arg + r.rest
      else additional == 31 && r.rest == s
  {
  }

  lemma ChunkSound(s: bytes, major: int, head: Head)
    requires ValidHead(head) && ReadChunk(s, major, head).Got?
    ensures var r := ReadChunk(s, major, head);
      r.value.head == head && ValidChunk(major, r.value) && s == r.value.data + r.rest
  {
  }

  lemma {:induction false} ChunksSound(s: bytes, major: int)
    requires ReadChunks(s, major).Got?
    ensures var r := ReadChunks(s, major);
      && (forall i :: 0 <= i < |r.value| ==> ValidChunk(major, r.value[i]))
      && s == ChunksBytes(major, r.value) + r.rest
    decreases |s|
  {
    var r := ReadChunks(s, major);
    if AtBreak(s) {
      assert s == [BREAK] + s[1..];
    } else {
      var head := ReadArgument(s[1..], s[0] % 32);
      ArgumentSound(s[1..], s[0] % 32);
      var chunk := ReadChunk(head.rest, major, head.value.value);
      ChunkSound(head.rest, major, head.value.value);
      ChunksSound(chunk.rest, major);
      InitialByte(s);
      var tail := ReadChunks(chunk.rest, major).value;
      ChunkLayout(s, major, chunk.value, s[1..], head.rest, chunk.rest);
      ChunksLayout(s, major, chunk.value, tail, chunk.rest, r.rest);
    }
  }

  lemma ChunksLayout(s: bytes, major: int, c: Chunk, tail: seq<Chunk>, t: bytes, rest: bytes)
    requires s == ChunkBytes(major, c) + t && t == ChunksBytes(major, tail) + rest
    ensures s == ChunksBytes(major, [c] + tail) + rest
  {
    assert ([c] + tail)[1..] == tail;
    Associate(ChunkBytes(major, c), ChunksBytes(major, tail), rest);
  }

  lemma ChunkLayout(s: bytes, major: int, c: Chunk, t: bytes, u: bytes, rest: bytes)
    requires s == Initial(major, c.head.additional) + t && t == c.head.arg + u && u == c.data + rest
    ensures s == ChunkBytes(major, c) + rest
  {
  }

  lemma StrSound(s: bytes, major: int, additional: int)
    requires ReadStr(s, major, additional).Got?
    ensures var r := ReadStr(s, major, additional);
      ValidStr(major, r.value) && Initial(major, additional) + s == StrBytes(major, r.value) + r.rest
  {
    var r, head := ReadStr(s, major, additional), ReadArgument(s, additional);
    ArgumentSound(s, additional);
    if head.value.Some? {
      ChunkSound(head.rest, major, head.value.value);
      ChunkLayout(Initial(major, additional) + s, major, r.value.chunk, s, head.rest, r.rest);
    } else {
      ChunksSound(s, major);
      Associate(Initial(major, 31), ChunksBytes(major, r.value.chunks), r.rest);
    }
  }

  lemma KeySound(s: bytes)
    requires ReadKey(s).Got?
    ensures var r := ReadKey(s); ValidStr(3, r.value) && s == StrBytes(3, r.value) + r.rest
  {
    StrSound(s[1..], 3, s[0] % 32);
    InitialByte(s);
  }

  lemma {:induction false} ItemSound(s: bytes, depth: nat)
    requires ReadItem(s, depth).Got?
    ensures var r := ReadItem(s, depth); Valid(r.value, depth) && s == Encode(r.value) + r.rest
    decreases |s|, 0
  {
    var major, additional, tail := s[0] / 32, s[0] % 32, s[1..];
    InitialByte(s);
    if major == 4 {
      ArraySound(tail, additional, depth);
    } else if major == 5 {
      MapSound(tail, additional, depth);
    } else {
      LeafSound(s, depth);
    }
  }

  lemma LeafSound(s: bytes, depth: nat)
    requires s != [] && s[0] / 32 != 4 && s[0] / 32 != 5 && ReadItem(s, depth).Got?
    ensures var r := ReadItem(s, depth); Valid(r.value, depth) && s == Encode(r.value) + r.rest
  {
    if s[0] / 32 <= 1 { IntSound(s, depth); } else if s[0] / 32 <= 3 { TextSound(s, depth); } else { InitialByte(s); }
  }

  lemma IntSound(s: bytes, depth: nat)
    requires s != [] && s[0] / 32 <= 1 && ReadItem(s, depth).Got?
    ensures var r := ReadItem(s, depth); Valid(r.value, depth) && s == Encode(r.value) + r.rest
  {
    InitialByte(s);
    ArgumentSound(s[1..], s[0] % 32);
  }

  lemma TextSound(s: bytes, depth: nat)
    requires s != [] && 2 <= s[0] / 32 <= 3 && ReadItem(s, depth).Got?
    ensures var r := ReadItem(s, depth); Valid(r.value, depth) && s == Encode(r.value) + r.rest
  {
    InitialByte(s);
    StrSound(s[1..], s[0] / 32, s[0] % 32);
  }

  lemma {:induction false} ArraySound(s: bytes, additional: int, depth: nat)
    requires depth <= MAX_CBOR_NESTING_DEPTH && ReadArray(s, additional, depth).Got?
    ensures var r := ReadArray(s, additional, depth);
      Valid(r.value, depth) && Initial(4, additional) + s == Encode(r.value) + r.rest
    decreases |s|, 2
  {
    var r, count := ReadArray(s, additional, depth), ReadArgument(s, additional);
    ArgumentSound(s, additional);
    ItemsSound(count.rest, CountOf(count.value), depth + 1);
    CountLayout(4, additional, s, count.value, count.rest, EncodeItems(r.value.items), r.rest);
  }

  lemma {:induction false} MapSound(s: bytes, additional: int, depth: nat)
    requires depth <= MAX_CBOR_NESTING_DEPTH && ReadMap(s, additional, depth).Got?
    ensures var r := ReadMap(s, additional, depth);
      Valid(r.value, depth) && Initial(5, additional) + s == Encode(r.value) + r.rest
    decreases |s|, 2
  {
    var r, count := ReadMap(s, additional, depth), ReadArgument(s, additional);
    ArgumentSound(s, additional);
    EntriesSound(count.rest, CountOf(count.value), {}, depth + 1);
    CountLayout(5, additional, s, count.value, count.rest, EncodeEntries(r.value.entries), r.rest);
  }

  lemma CountLayout(major: int, additional: int, s: bytes, count: Option<Head>, t: bytes, body: bytes, rest: bytes)
    requires if count.Some? then count.value.additional == additional && s == count.value.arg + t
             else additional == 31 && s == t
    requires t == body + End(count) + rest
    ensures Initial(major, additional) + s == CountBytes(major, count) + body + End(count) + rest
  {
    Regroup(CountBytes(major, count), body, End(count), rest);
    if count.Some? { Associate(Initial(major, additional), count.value.arg, t); }
  }

  predicate RightCount(left: Option<nat>, n: nat) {
    left.Some? ==> left.value == n
  }

  function EndOf(left: Option<nat>): bytes {
    if left.Some? then [] else [BREAK]
  }

  lemma {:induction false} ItemsSound(s: bytes, left: Option<nat>, depth: nat)
    requires ReadItems(s, left, depth).Got?
    ensures var r := ReadItems(s, left, depth);
      && RightCount(left, |r.value|) && (forall i :: 0 <= i < |r.value| ==> Valid(r.value[i], depth))
      && s == EncodeItems(r.value) + EndOf(left) + r.rest
    decreases |s|, 1
  {
    var r := ReadItems(s, left, depth);
    if Done(s, left) {
      assert left.None? ==> s == [BREAK] + s[1..];
    } else {
      var item := ReadItem(s, depth);
      ItemSound(s, depth);
      ItemsSound(item.rest, OneLess(left), depth);
      var items := ReadItems(item.rest, OneLess(left), depth).value;
      assert r.value == [item.value] + items;
      Regroup(Encode(item.value), EncodeItems(items), EndOf(left), r.rest);
    }
  }

  /** Entries that are fit to follow ones whose keys are in seen. */
  ghost predicate ValidEntries(entries: seq<Entry>, seen: set<bytes>, depth: nat) {
    && DistinctKeys(entries)
    && (forall i :: 0 <= i < |entries| ==>
          Content(entries[i].key) !in seen && ValidStr(3, entries[i].key) && Valid(entries[i].value, depth))
  }

  lemma PrependEntry(entry: Entry, entries: seq<Entry>, seen: set<bytes>, depth: nat)
    ensures ValidEntries([entry] + entries, seen, depth) <==>
      && Content(entry.key) !in seen && ValidStr(3, entry.key) && Valid(entry.value, depth)
      && ValidEntries(entries, seen + {Content(entry.key)}, depth)
  {
    var all := [entry] + entries;
    assert all[0] == entry && forall i :: 0 <= i < |entries| ==> all[i + 1] == entries[i];
    assert forall i :: 0 < i < |all| ==> all[i] == entries[i - 1];
  }

  lemma {:induction false} EntriesSound(s: bytes, left: Option<nat>, seen: set<bytes>, depth: nat)
    requires ReadEntries(s, left, seen, depth).Got?
    ensures var r := ReadEntries(s, left, seen, depth);
      && RightCount(left, |r.value|) && ValidEntries(r.value, seen, depth)
      && s == EncodeEntries(r.value) + EndOf(left) + r.rest
    decreases |s|, 1
  {
    var r := ReadEntries(s, left, seen, depth);
    if Done(s, left) {
      assert left.None? ==> s == [BREAK] + s[1..];
    } else {
      var key := ReadKey(s);
      KeySound(s);
      var value := ReadItem(key.rest, depth);
      ItemSound(key.rest, depth);
      var entry, seen' := Entry(key.value, value.value), seen + {Content(key.value)};
      EntriesSound(value.rest, OneLess(left), seen', depth);
      var entries := ReadEntries(value.rest, OneLess(left), seen', depth).value;
      PrependEntry(entry, entries, seen, depth);
      EntryLayout(s, entry, entries, key.rest, value.rest, EndOf(left), r.rest);
    }
  }

  lemma EntryLayout(s: bytes, entry: Entry, entries: seq<Entry>, t: bytes, u: bytes, end: bytes, rest: bytes)
    requires s == StrBytes(3, entry.key) + t && t == Encode(entry.value) + u && u == EncodeEntries(entries) + end + rest
    ensures s == EncodeEntries([entry] + entries) + end + rest
  {
    assert ([entry] + entries)[1..] == entries;
    Associate(StrBytes(3, entry.key), Encode(entry.value), u);
    Regroup(EncodeEntry(entry), EncodeEntries(entries), end, rest);
  }

  // ---- every valid tree is read back from its encoding -----------------------------

  lemma ArgumentComplete(h: Head, rest: bytes)
    requires ValidHead(h)
    ensures ReadArgument(h.arg + rest, h.additional) == Got(Some(h), rest)
  {
    assert (h.arg + rest)[..|h.arg|] == h.arg && (h.arg + rest)[|h.arg|..] == rest;
  }

  lemma ChunkComplete(major: int, c: Chunk, rest: bytes)
    requires ValidChunk(major, c)
    ensures ReadChunk(c.data + rest, major, c.head) == Got(c, rest)
  {
    assert (c.data + rest)[..|c.data|] == c.data && (c.data + rest)[|c.data|..] == rest;
  }

  /** A byte that is not a break, and what stands behind it. */
  predicate Opens(s: bytes, major: int, additional: int, tail: bytes) {
    && s != [] && s[0] / 32 == major && s[0] % 32 == additional && s[1..] == tail
    && (major < 7 || additional < 31 ==> !AtBreak(s))
  }

  lemma OpensInitial(major: int, additional: int, tail: bytes)
    requires 0 <= major < 8 && 0 <= additional < 32
    ensures Opens(Initial(major, additional) + tail, major, additional, tail)
  {
  }

  lemma OpensHead(major: int, h: Head, tail: bytes)
    requires 0 <= major < 8 && ValidHead(h)
    ensures Opens(HeadBytes(major, h) + tail, major, h.additional, h.arg + tail)
  {
    OpensInitial(major, h.additional, h.arg + tail);
    Associate(Initial(major, h.additional), h.arg, tail);
  }

  lemma {:induction false} ChunksComplete(major: int, chunks: seq<Chunk>, rest: bytes)
    requires 2 <= major <= 3 && forall i :: 0 <= i < |chunks| ==> ValidChunk(major, chunks[i])
    ensures ReadChunks(ChunksBytes(major, chunks) + rest, major) == Got(chunks, rest)
    decreases |chunks|
  {
    if chunks == [] {
      assert ([BREAK] + rest)[1..] == rest;
    } else {
      var t := ChunksBytes(major, chunks[1..]) + rest;
      ChunksComplete(major, chunks[1..], rest);
      ChunksStep(major, chunks[0], t, chunks[1..], rest);
      Associate(ChunkBytes(major, chunks[0]), ChunksBytes(major, chunks[1..]), rest);
      assert chunks == [chunks[0]] + chunks[1..];
    }
  }

  lemma ChunksStep(major: int, c: Chunk, tail: bytes, chunks: seq<Chunk>, rest: bytes)
    requires 2 <= major <= 3 && ValidChunk(major, c) && ReadChunks(tail, major) == Got(chunks, rest)
    ensures ReadChunks(ChunkBytes(major, c) + tail, major) == Got([c] + chunks, rest)
  {
    Associate(HeadBytes(major, c.head), c.data, tail);
    OpensHead(major, c.head, c.data + tail);
    ArgumentComplete(c.head, c.data + tail);
    ChunkComplete(major, c, tail);
  }

  lemma StrComplete(major: int, str: Str, rest: bytes)
    requires 2 <= major <= 3 && ValidStr(major, str)
    ensures var s := StrBytes(major, str) + rest;
      s != [] && s[0] / 32 == major && !AtBreak(s) && ReadStr(s[1..], major, s[0] % 32) == Got(str, rest)
  {
    match str
    case Definite(c) =>
      Associate(HeadBytes(major, c.head), c.data, rest);
      OpensHead(major, c.head, c.data + rest);
      ArgumentComplete(c.head, c.data + rest);
      ChunkComplete(major, c, rest);
    case Indefinite(chunks) =>
      Associate(Initial(major, 31), ChunksBytes(major, chunks), rest);
      OpensInitial(major, 31, ChunksBytes(major, chunks) + rest);
      ChunksComplete(major, chunks, rest);
  }

  lemma {:induction false} ItemComplete(item: Item, depth: nat, rest: bytes)
    requires Valid(item, depth)
    ensures ReadItem(Encode(item) + rest, depth) == Got(item, rest) && !AtBreak(Encode(item) + rest)
    decreases item
  {
    match item
    case Int(major, head) =>
      OpensHead(major, head, rest);
      ArgumentComplete(head, rest);
    case StringItem(major, str) => StrComplete(major, str, rest);
    case Array(_, _) => ArrayComplete(item, depth, rest);
    case Map(_, _) => MapComplete(item, depth, rest);
    case Simple(additional, data) =>
      Associate(Initial(7, additional), data, rest);
      OpensInitial(7, additional, data + rest);
      assert (data + rest)[..|data|] == data && (data + rest)[|data|..] == rest;
  }

  lemma CountComplete(major: int, count: Option<Head>, n: nat, tail: bytes)
    requires 4 <= major <= 5 && ValidCount(count, n)
    ensures var s := CountBytes(major, count) + tail;
      && s != [] && s[0] / 32 == major && !AtBreak(s)
      && ReadArgument(s[1..], s[0] % 32) == Got(count, tail)
  {
    if count.Some? {
      OpensHead(major, count.value, tail);
      ArgumentComplete(count.value, tail);
    } else {
      OpensInitial(major, 31, tail);
    }
  }

  lemma {:induction false} ArrayComplete(item: Item, depth: nat, rest: bytes)
    requires item.Array? && Valid(item, depth)
    ensures ReadItem(Encode(item) + rest, depth) == Got(item, rest) && !AtBreak(Encode(item) + rest)
    decreases item, 0
  {
    var body := EncodeItems(item.items) + End(item.acount) + rest;
    CountComplete(4, item.acount, |item.items|, body);
    ItemsComplete(item.items, CountOf(item.acount), depth + 1, rest);
    Regroup(CountBytes(4, item.acount), EncodeItems(item.items), End(item.acount), rest);
  }

  lemma {:induction false} MapComplete(item: Item, depth: nat, rest: bytes)
    requires item.Map? && Valid(item, depth)
    ensures ReadItem(Encode(item) + rest, depth) == Got(item, rest) && !AtBreak(Encode(item) + rest)
    decreases item, 0
  {
    var body := EncodeEntries(item.entries) + End(item.mcount) + rest;
    CountComplete(5, item.mcount, |item.entries|, body);
    EntriesComplete(item.entries, CountOf(item.mcount), {}, depth + 1, rest);
    Regroup(CountBytes(5, item.mcount), EncodeEntries(item.entries), End(item.mcount), rest);
  }

  lemma {:induction false} ItemsComplete(items: seq<Item>, left: Option<nat>, depth: nat, rest: bytes)
    requires RightCount(left, |items|) && forall i :: 0 <= i < |items| ==> Valid(items[i], depth)
    ensures ReadItems(EncodeItems(items) + EndOf(left) + rest, left, depth) == Got(items, rest)
    decreases items
  {
    if items == [] {
      assert left.None? ==> ([BREAK] + rest)[1..] == rest;
      assert [] + EndOf(left) + rest == EndOf(left) + rest;
    } else {
      var tail := EncodeItems(items[1..]) + EndOf(left) + rest;
      ItemComplete(items[0], depth, tail);
      ItemsComplete(items[1..], OneLess(left), depth, rest);
      ItemsStep(Encode(items[0]) + tail, items[0], tail, items[1..], left, depth, rest);
      Regroup(Encode(items[0]), EncodeItems(items[1..]), EndOf(left), rest);
      assert items == [items[0]] + items[1..];
    }
  }

  lemma ItemsStep(s: bytes, item: Item, tail: bytes, items: seq<Item>, left: Option<nat>, depth: nat, rest: bytes)
    requires ReadItem(s, depth) == Got(item, tail) && !AtBreak(s) && left != Some(0)
    requires ReadItems(tail, OneLess(left), depth) == Got(items, rest)
    ensures ReadItems(s, left, depth) == Got([item] + items, rest)
  {
  }

  lemma {:induction false} EntriesComplete(entries: seq<Entry>, left: Option<nat>, seen: set<bytes>, depth: nat,
                                           rest: bytes)
    requires RightCount(left, |entries|) && ValidEntries(entries, seen, depth)
    ensures ReadEntries(EncodeEntries(entries) + EndOf(left) + rest, left, seen, depth) == Got(entries, rest)
    decreases entries
  {
    if entries == [] {
      assert left.None? ==> ([BREAK] + rest)[1..] == rest;
      assert [] + EndOf(left) + rest == EndOf(left) + rest;
    } else {
      var entry, tail := entries[0], EncodeEntries(entries[1..]) + EndOf(left) + rest;
      assert entries == [entry] + entries[1..];
      PrependEntry(entry, entries[1..], seen, depth);
      StrComplete(3, entry.key, Encode(entry.value) + tail);
      EntryValueComplete(entry, depth, tail);
      EntriesComplete(entries[1..], OneLess(left), seen + {Content(entry.key)}, depth, rest);
      Regroup(EncodeEntry(entry), EncodeEntries(entries[1..]), EndOf(left), rest);
      Associate(StrBytes(3, entry.key), Encode(entry.value), tail);
    }
  }

  lemma {:induction false} EntryValueComplete(entry: Entry, depth: nat, rest: bytes)
    requires Valid(entry.value, depth)
    ensures ReadItem(Encode(entry.value) + rest, depth) == Got(entry.value, rest)
    ensures !AtBreak(Encode(entry.value) + rest)
    decreases entry
  {
    ItemComplete(entry.value, depth, rest);
  }

  // ---- what the reader accepts ------------------------------------------------------

  /** Valid trees are told apart by their bytes, even with more bytes behind them. */
  lemma PrefixFree(a: Item, x: bytes, b: Item, y: bytes, depth: nat)
    requires Valid(a, depth) && Valid(b, depth) && Encode(a) + x == Encode(b) + y
    ensures a == b && x == y
  {
    ItemComplete(a, depth, x);
    ItemComplete(b, depth, y);
  }

  /** The reader succeeds exactly on a valid tree's bytes followed by anything. */
  lemma Accepts(s: bytes)
    ensures ReadItem(s, 0).Got? <==> exists item, rest :: Valid(item, 0) && Encode(item) + rest == s
    ensures forall item, rest | Valid(item, 0) && Encode(item) + rest == s :: ReadItem(s, 0) == Got(item, rest)
    ensures forall item | Valid(item, 0) && Encode(item) == s :: ReadItem(s, 0) == Got(item, [])
  {
    forall item, rest | Valid(item, 0) && Encode(item) + rest == s ensures ReadItem(s, 0) == Got(item, rest) {
      ItemComplete(item, 0, rest);
    }
    forall item | Valid(item, 0) && Encode(item) == s ensures ReadItem(s, 0) == Got(item, []) {
      assert Encode(item) + [] == s;
    }
    if ReadItem(s, 0).Got? { ItemSound(s, 0); }
  }

  // ---- what the bytes mean -----------------------------------------------------------

  function Pow256(n: nat): (p: nat)
    ensures p > 0
  {
    if n == 0 then 1 else 256 * Pow256(n - 1)
  }

  lemma WorthOfTwo(a: byte, b: byte)
    ensures BigEndian([a, b]) == 0x100 * a as int + b as int
  {
    assert [a, b][..1] == [a] && [a][..0] == [] && BigEndian([a]) == a;
  }

  lemma WorthOfFour(a: byte, b: byte, c: byte, d: byte)
    ensures BigEndian([a, b, c, d]) == 0x100_0000 * a as int + 0x1_0000 * b as int + 0x100 * c as int + d as int
  {
    WorthOfTwo(a, b);
    assert [a, b, c, d][..3] == [a, b, c] && [a, b, c][..2] == [a, b];
  }

  /** Bytes in front are worth so much more. */
  lemma {:induction false} WorthOfJoin(high: bytes, low: bytes)
    ensures BigEndian(high + low) == BigEndian(high) * Pow256(|low|) + BigEndian(low)
    decreases |low|
  {
    if low == [] {
      assert high + low == high;
    } else {
      var n := |low| - 1;
      WorthOfJoin(high, low[..n]);
      assert (high + low)[..|high| + n] == high + low[..n] && (high + low)[|high| + n] == low[n];
      Scaled(BigEndian(high), Pow256(n), BigEndian(low[..n]));
    }
  }

  lemma Scaled(h: nat, p: nat, l: nat)
    ensures 256 * (h * p + l) == h * (256 * p) + 256 * l
  {
  }

  /** Arguments are written most significant byte first. */
  lemma BigEndianFirst(b: byte, bs: bytes)
    ensures BigEndian([b] + bs) == b as int * Pow256(|bs|) + BigEndian(bs)
  {
    WorthOfJoin([b], bs);
    assert [b][..0] == [] && BigEndian([b]) == b;
  }

  /** The worth of every kind of argument: the additional information itself, or 1, 2, 4 or 8 bytes. */
  lemma ArgumentWorth(n: int, a: byte, b: byte, c: byte, d: byte, low: bytes)
    requires 0 <= n < 24 && |low| == 4
    ensures Argument(Head(n, [])) == n
    ensures Argument(Head(24, [a])) == a
    ensures Argument(Head(25, [a, b])) == 0x100 * a as int + b as int
    ensures Argument(Head(26, [a, b, c, d]))
         == 0x100_0000 * a as int + 0x1_0000 * b as int + 0x100 * c as int + d as int
    ensures Argument(Head(27, [a, b, c, d] + low))
         == 0x1_0000_0000 * Argument(Head(26, [a, b, c, d])) + Argument(Head(26, low))
  {
    assert [a][..0] == [];
    WorthOfTwo(a, b);
    WorthOfFour(a, b, c, d);
    WorthOfJoin([a, b, c, d], low);
    assert Pow256(4) == 256 * Pow256(3) && Pow256(3) == 256 * Pow256(2) && Pow256(2) == 256 * Pow256(1);
  }

  /** Binary strings of 256 to 65535 bytes, behind their two-byte length, are read whole. */
  lemma LongStringIsRead(data: bytes, rest: bytes, depth: nat)
    requires 256 <= |data| <= 65535 && depth <= 64
    ensures var hi: byte, lo: byte := |data| / 256, |data| % 256;
      ReadItem([0x59, hi, lo] + data + rest, depth)
      == Got(StringItem(2, Definite(Chunk(Head(25, [hi, lo]), data))), rest)
  {
    var hi: byte, lo: byte := |data| / 256, |data| % 256;
    var item := StringItem(2, Definite(Chunk(Head(25, [hi, lo]), data)));
    WorthOfTwo(hi, lo);
    ItemComplete(item, depth, rest);
    assert [0x59] + [hi, lo] == [0x59, hi, lo];
  }

  // ---- what is refused ---------------------------------------------------------------

  /** d arrays of one item around a zero. */
  function Nest(d: nat): bytes {
    if d == 0 then [0] else [0x81] + Nest(d - 1)
  }

  function NestTree(d: nat): Item {
    if d == 0 then Int(0, Head(0, [])) else Array(Some(Head(1, [])), [NestTree(d - 1)])
  }

  lemma {:induction false} NestBytes(d: nat)
    ensures Encode(NestTree(d)) == Nest(d)
  {
    if d > 0 {
      NestBytes(d - 1);
      var inner := [NestTree(d - 1)];
      assert inner[1..] == [] && EncodeItems(inner[1..]) == [];
      assert EncodeItems(inner) == Nest(d - 1) + [];
      assert HeadBytes(4, Head(1, [])) == [0x81];
      assert [0x81] + (Nest(d - 1) + []) + [] == [0x81] + Nest(d - 1);
    }
  }

  lemma {:induction false} NestValid(d: nat, depth: nat)
    requires depth + d <= 64
    ensures Valid(NestTree(d), depth)
  {
    if d > 0 { NestValid(d - 1, depth + 1); }
  }

  lemma {:induction false} NestTooDeep(d: nat, depth: nat)
    requires depth + d > 64
    ensures ReadItem(Nest(d), depth) == Fail(NestingTooDeep)
  {
    if depth <= 64 {
      NestTooDeep(d - 1, depth + 1);
      assert Nest(d)[1..] == Nest(d - 1);
      OneItemFails(Nest(d - 1), depth);
    }
  }

  lemma OneItemFails(s: bytes, depth: nat)
    requires ReadItem(s, depth + 1) == Fail(NestingTooDeep)
    ensures ReadArray(s, 1, depth) == Fail(NestingTooDeep)
  {
    assert s[..0] == [] && s[0..] == s;
  }

  /** Sixty-four arrays deep is read; one more is refused for its depth. */
  lemma NestingLimit(d: nat)
    ensures d <= 64 ==> ReadItem(Nest(d), 0) == Got(NestTree(d), [])
    ensures d > 64 ==> ReadItem(Nest(d), 0) == Fail(NestingTooDeep)
  {
    if d <= 64 {
      NestValid(d, 0);
      NestBytes(d);
      ItemComplete(NestTree(d), 0, []);
      assert Nest(d) + [] == Nest(d);
    } else {
      NestTooDeep(d, 0);
    }
  }

  /** No tags, no simple values but the booleans, null, undefined and those of one to eight bytes, no stray break. */
  lemma FirstByteRefused(s: bytes, depth: nat)
    requires s != [] && depth <= 64
    requires 0xC0 <= s[0] < 0xE0 || 0xE0 <= s[0] < 0xF4 || 0xFC <= s[0]
    ensures ReadItem(s, depth) == Fail(Malformed)
  {
  }

  /** No reserved additional information anywhere, and no integer of indefinite length. */
  lemma AdditionalRefused(s: bytes, depth: nat)
    requires s != [] && depth <= 64
    requires 28 <= s[0] % 32 <= 30 || (s[0] < 0x40 && s[0] % 32 == 31)
    ensures ReadItem(s, depth) == Fail(Malformed)
  {
  }

  lemma MapOf(n: int, body: bytes, depth: nat)
    requires 0 <= n < 24 && depth <= 64
    ensures var r := ReadEntries(body, Some(n), {}, depth + 1);
      r.Fail? ==> ReadItem([0xA0 + n] + body, depth) == Fail(r.error)
  {
    var s := [0xA0 + n] + body;
    assert s[1..] == body && s[0] / 32 == 5 && s[0] % 32 == n;
    assert body[..0] == [] && body[0..] == body;
    assert ReadArgument(body, n) == Got(Some(Head(n, [])), body);
  }

  lemma KeyComplete(k: Str, rest: bytes)
    requires ValidStr(3, k)
    ensures ReadKey(StrBytes(3, k) + rest) == Got(k, rest)
  {
    StrComplete(3, k, rest);
  }

  lemma SecondKeyRefused(body: bytes, k: Str, mid: bytes, v: Item, tail: bytes, k': Str, rest: bytes, depth: nat)
    requires ReadKey(body) == Got(k, mid) && ReadItem(mid, depth) == Got(v, tail) && ReadKey(tail) == Got(k', rest)
    requires Content(k) == Content(k')
    ensures ReadEntries(body, Some(2), {}, depth) == Fail(InvalidMap)
  {
    var seen := {} + {Content(k)};
    assert ReadEntries(tail, Some(1), seen, depth) == Fail(InvalidMap);
  }

  /**
   A map of two entries whose keys have the same content, however cut, is refused as a map,
   whatever stands behind the second key.
   */
  lemma DuplicateKeyRefused(k: Str, v: Item, k': Str, rest: bytes, depth: nat,
                            first: bytes, value: bytes, second: bytes)
    requires first == StrBytes(3, k) && value == Encode(v) && second == StrBytes(3, k')
    requires ValidStr(3, k) && ValidStr(3, k') && Content(k) == Content(k') && depth < 64 && Valid(v, depth + 1)
    ensures ReadItem([0xA2] + (first + (value + (second + rest))), depth) == Fail(InvalidMap)
  {
    var tail := second + rest;
    var mid := value + tail;
    assert ReadKey(first + mid) == Got(k, mid) by { KeyComplete(k, mid); }
    assert ReadItem(mid, depth + 1) == Got(v, tail) by { ItemComplete(v, depth + 1, tail); }
    assert ReadKey(tail) == Got(k', rest) by { KeyComplete(k', rest); }
    SameKeyRefused(first + mid, k, mid, v, tail, k', rest, depth);
  }

  lemma SameKeyRefused(body: bytes, k: Str, mid: bytes, v: Item, tail: bytes, k': Str, rest: bytes, depth: nat)
    requires ReadKey(body) == Got(k, mid) && ReadItem(mid, depth + 1) == Got(v, tail) && ReadKey(tail) == Got(k', rest)
    requires Content(k) == Content(k') && depth <= 64
    ensures ReadItem([0xA2] + body, depth) == Fail(InvalidMap)
  {
    SecondKeyRefused(body, k, mid, v, tail, k', rest, depth + 1);
    MapOf(2, body, depth);
    assert [0xA0 + 2] == [0xA2];
  }

  /** So is a map whose first key is not a text string. */
  lemma OtherKeyRefused(n: int, key: byte, rest: bytes, depth: nat)
    requires 0 < n < 24 && key / 32 != 3 && depth <= 64
    ensures ReadItem([0xA0 + n] + ([key] + rest), depth) == Fail(InvalidMap)
  {
    MapOf(n, [key] + rest, depth);
  }
}
