/**
 The CBOR preflight scanner of crates/conveyance-protocol/src/message.rs: one pass over
 the input with an advancing offset, which each method takes and gives back. Each method
 is shown to do on `input[offset..]` what the tree reader of `Cbor` does.
 */
module CborScan {
  import opened Wrappers
  import opened Cbor
  import CborTheorems

  /** The scanner stopped where the reader did, or failed as it did. */
  ghost predicate Follows<T, U>(input: bytes, r: Result<T, CborError>, next: nat, p: Parsed<U>) {
    match p
    case Fail(e) => r == Err(e)
    case Got(_, rest) => r.Ok? && next <= |input| && input[next..] == rest
  }

  /** Two reads that end at the same place, or fail in the same way. */
  ghost predicate SameEnd<T>(p: Parsed<T>, q: Parsed<T>) {
    match p
    case Fail(e) => q == Fail(e)
    case Got(_, rest) => q.Got? && q.rest == rest
  }

  lemma Drop(input: bytes, offset: nat, n: nat)
    requires offset + n <= |input|
    ensures input[offset..][n..] == input[offset + n..] && input[offset..][..n] == input[offset..offset + n]
  {
  }

  method TakeByte(input: bytes, offset: nat) returns (r: Result<byte, CborError>, next: nat)
    requires offset <= |input|
    ensures r.Ok? <==> offset < |input|
    ensures r.Ok? ==> next == offset + 1 && r.value == input[offset] && input[next..] == input[offset..][1..]
    ensures r.Err? ==> r == Err(Malformed) && input[offset..] == []
  {
    if offset >= |input| { return Err(Malformed), offset; }
    Drop(input, offset, 1);
    return Ok(input[offset]), offset + 1;
  }

  method TakeBytes(input: bytes, offset: nat, length: nat) returns (r: Result<bytes, CborError>, next: nat)
    requires offset <= |input|
    ensures Follows(input, r, next, Take(input[offset..], length))
    ensures r.Ok? ==> next == offset + length && r.value == Take(input[offset..], length).value
  {
    var end := offset + length;
    if end > |input| { return Err(Malformed), offset; }
    Drop(input, offset, length);
    return Ok(input[offset..end]), end;
  }

  method ScanArgument(input: bytes, offset: nat, additional: int)
    returns (r: Result<Option<nat>, CborError>, next: nat)
    requires offset <= |input| && 0 <= additional < 32
    ensures Follows(input, r, next, ReadArgument(input[offset..], additional))
    ensures r.Ok? ==> offset <= next && r.value == CountOf(ReadArgument(input[offset..], additional).value)
  {
    if additional <= 23 {
      return Ok(Some(additional)), offset;
    } else if additional <= 27 {
      var arg;
      arg, next := TakeBytes(input, offset, ArgLength(additional));
      if arg.Err? { return Err(arg.error), next; }
      return Ok(Some(BigEndian(arg.value))), next;
    } else if additional == 31 {
      return Ok(None), offset;
    } else {
      return Err(Malformed), offset;
    }
  }

  method AppendStringChunk(input: bytes, offset: nat, major: int, length: nat, output: bytes, ghost head: Head)
    returns (r: Result<bytes, CborError>, next: nat)
    requires offset <= |input| && ValidHead(head) && Argument(head) == length
    ensures Follows(input, r, next, ReadChunk(input[offset..], major, head))
    ensures r.Ok? ==> offset <= next && r.value == output + ReadChunk(input[offset..], major, head).value.data
  {
    var chunk;
    chunk, next := TakeBytes(input, offset, length);
    if chunk.Err? { return Err(chunk.error), next; }
    if major == 3 && !Utf8.Valid(chunk.value) { return Err(Malformed), next; }
    return Ok(output + chunk.value), next;
  }

  method ScanString(input: bytes, offset: nat, major: int, additional: int)
    returns (r: Result<bytes, CborError>, next: nat)
    requires offset <= |input| && 0 <= additional < 32
    ensures Follows(input, r, next, ReadStr(input[offset..], major, additional))
    ensures r.Ok? ==> offset <= next && r.value == Content(ReadStr(input[offset..], major, additional).value)
  {
    ghost var head := ReadArgument(input[offset..], additional);
    var length;
    length, next := ScanArgument(input, offset, additional);
    if length.Err? { return Err(length.error), next; }
    if length.value.Some? {
      r, next := AppendStringChunk(input, next, major, length.value.value, [], head.value.value);
    } else {
      r, next := ScanChunks(input, next, major);
    }
  }

  /** What is still to be read carries the rest of the string and ends where it all ends. */
  ghost predicate Rest(whole: Parsed<seq<Chunk>>, output: bytes, now: Parsed<seq<Chunk>>) {
    SameEnd(whole, now) && (whole.Got? ==> Joined(whole.value) == output + Joined(now.value))
  }

  method ScanChunks(input: bytes, offset: nat, major: int) returns (r: Result<bytes, CborError>, next: nat)
    requires offset <= |input|
    ensures Follows(input, r, next, ReadChunks(input[offset..], major))
    ensures r.Ok? ==> offset <= next && r.value == Joined(ReadChunks(input[offset..], major).value)
  {
    ghost var whole := ReadChunks(input[offset..], major);
    var output := [];
    next := offset;
    while true
      invariant offset <= next <= |input|
      invariant Rest(whole, output, ReadChunks(input[next..], major))
      decreases |input| - next
    {
      ghost var s := input[next..];
      if next < |input| && input[next] == BREAK {
        Drop(input, next, 1);
        return Ok(output), next + 1;
      }
      var initial;
      initial, next := TakeByte(input, next);
      if initial.Err? { return Err(Malformed), next; }
      if initial.value / 32 != major || initial.value % 32 == 31 { return Err(Malformed), next; }
      ghost var head := ReadArgument(input[next..], initial.value % 32);
      var length;
      length, next := ScanArgument(input, next, initial.value % 32);
      if length.Err? { return Err(length.error), next; }
      if length.value.None? { return Err(Malformed), next; }
      ghost var chunk := ReadChunk(input[next..], major, head.value.value);
      r, next := AppendStringChunk(input, next, major, length.value.value, output, head.value.value);
      if r.Err? { return; }
      ChunksUnroll(s, major, head.value.value, head.rest, chunk.value, input[next..]);
      KeepRest(whole, output, ReadChunks(s, major), chunk.value, ReadChunks(input[next..], major));
      output := r.value;
    }
  }

  lemma ChunksUnroll(s: bytes, major: int, head: Head, t: bytes, chunk: Chunk, u: bytes)
    requires s != [] && !AtBreak(s) && s[0] / 32 == major && s[0] % 32 != 31
    requires ReadArgument(s[1..], s[0] % 32) == Got(Some(head), t) && ReadChunk(t, major, head) == Got(chunk, u)
    ensures var p, q := ReadChunks(s, major), ReadChunks(u, major);
      SameEnd(p, q) && (p.Got? ==> p.value == [chunk] + q.value)
  {
  }

  lemma KeepRest(whole: Parsed<seq<Chunk>>, output: bytes, p: Parsed<seq<Chunk>>, chunk: Chunk, q: Parsed<seq<Chunk>>)
    requires Rest(whole, output, p) && SameEnd(p, q) && (p.Got? ==> p.value == [chunk] + q.value)
    ensures Rest(whole, output + chunk.data, q)
  {
    if p.Got? {
      assert p.value[1..] == q.value;
      assert output + Joined(p.value) == output + chunk.data + Joined(q.value);
    }
  }

  method ScanTextKey(input: bytes, offset: nat) returns (r: Result<bytes, CborError>, next: nat)
    requires offset <= |input|
    ensures Follows(input, r, next, ReadKey(input[offset..]))
    ensures r.Ok? ==> offset < next && r.value == Content(ReadKey(input[offset..]).value)
  {
    var initial;
    initial, next := TakeByte(input, offset);
    if initial.Err? { return Err(Malformed), next; }
    if initial.value / 32 != 3 { return Err(InvalidMap), next; }
    r, next := ScanString(input, next, 3, initial.value % 32);
  }

  method ScanItem(input: bytes, offset: nat, depth: nat) returns (r: Result<(), CborError>, next: nat)
    requires offset <= |input|
    ensures Follows(input, r, next, ReadItem(input[offset..], depth))
    ensures r.Ok? ==> offset < next
    decreases |input| - offset, 0
  {
    if depth > MAX_CBOR_NESTING_DEPTH { return Err(NestingTooDeep), offset; }
    var initial;
    initial, next := TakeByte(input, offset);
    if initial.Err? { return Err(Malformed), next; }
    var major, additional := initial.value / 32, initial.value % 32;
    if major <= 1 {
      var argument;
      argument, next := ScanArgument(input, next, additional);
      if argument.Err? { return Err(argument.error), next; }
      if argument.value.None? { return Err(Malformed), next; }
      r := Ok(());
    } else if major <= 3 {
      var str;
      str, next := ScanString(input, next, major, additional);
      r := if str.Err? then Err(str.error) else Ok(());
    } else if major == 4 {
      r, next := ScanArray(input, next, additional, depth);
    } else if major == 5 {
      r, next := ScanMap(input, next, additional, depth);
    } else if major == 6 {
      r := Err(Malformed);
    } else if 20 <= additional <= 27 {
      var data;
      data, next := TakeBytes(input, next, ArgLength(additional));
      r := if data.Err? then Err(data.error) else Ok(());
    } else {
      r := Err(Malformed);
    }
  }

  /** One more item of a read that is to end as `whole` did. */
  lemma ItemsUnroll(whole: Parsed<seq<Item>>, s: bytes, left: Option<nat>, depth: nat)
    requires !Done(s, left) && SameEnd(whole, ReadItems(s, left, depth))
    ensures match ReadItem(s, depth)
      case Fail(e) => whole == Fail(e)
      case Got(_, t) => SameEnd(whole, ReadItems(t, OneLess(left), depth))
  {
  }

  method ScanArray(input: bytes, offset: nat, additional: int, depth: nat)
    returns (r: Result<(), CborError>, next: nat)
    requires offset <= |input| && 0 <= additional < 32
    ensures Follows(input, r, next, ReadArray(input[offset..], additional, depth))
    ensures r.Ok? ==> offset <= next
    decreases |input| - offset, 2
  {
    var count;
    count, next := ScanArgument(input, offset, additional);
    if count.Err? { return Err(count.error), next; }
    if count.value.Some? {
      r, next := ScanCounted(input, next, count.value.value, depth + 1);
    } else {
      r, next := ScanToBreak(input, next, depth + 1);
    }
  }

  /** The items a loop gets through before it is over or one of them fails: never more than there are bytes. */
  ghost function ItemTurns(s: bytes, left: Option<nat>, depth: nat): (n: nat)
    ensures n <= |s|
    decreases |s|
  {
    if Done(s, left) || ReadItem(s, depth).Fail? then 0
    else 1 + ItemTurns(ReadItem(s, depth).rest, OneLess(left), depth)
  }

  /** The same for the entries of a map, of two bytes at least each. */
  ghost function EntryTurns(s: bytes, left: Option<nat>, seen: set<bytes>, depth: nat): (n: nat)
    ensures 2 * n <= |s|
    decreases |s|
  {
    var one := ReadEntry(s, left.Some?, seen, depth);
    if Done(s, left) || one.Fail? then 0
    else 1 + EntryTurns(one.rest, OneLess(left), seen + {one.value}, depth)
  }

  /** However large the count, each turn takes a byte: the loop is over by the end of the input. */
  method ScanCounted(input: bytes, offset: nat, count: nat, depth: nat) returns (r: Result<(), CborError>, next: nat)
    requires offset <= |input|
    ensures Follows(input, r, next, ReadItems(input[offset..], Some(count), depth))
    ensures r.Ok? ==> offset + count <= next
    decreases |input| - offset, 1
  {
    ghost var whole := ReadItems(input[offset..], Some(count), depth);
    next := offset;
    var i: nat := 0;
    while i < count
      invariant i <= count && offset + i <= next <= |input|
      invariant SameEnd(whole, ReadItems(input[next..], Some(count - i), depth))
      decreases |input| - next
    {
      ItemsUnroll(whole, input[next..], Some(count - i), depth);
      r, next := ScanItem(input, next, depth);
      if r.Err? { return; }
      i := i + 1;
    }
    ItemsOver(whole, input[next..], depth);
    r := Ok(());
  }

  lemma ItemsOver(whole: Parsed<seq<Item>>, s: bytes, depth: nat)
    requires SameEnd(whole, ReadItems(s, Some(0), depth))
    ensures whole.Got? && whole.rest == s
  {
  }

  method ScanToBreak(input: bytes, offset: nat, depth: nat) returns (r: Result<(), CborError>, next: nat)
    requires offset <= |input|
    ensures Follows(input, r, next, ReadItems(input[offset..], None, depth))
    ensures r.Ok? ==> offset < next
    decreases |input| - offset, 1
  {
    ghost var whole := ReadItems(input[offset..], None, depth);
    next := offset;
    while !(next < |input| && input[next] == BREAK)
      invariant offset <= next <= |input|
      invariant SameEnd(whole, ReadItems(input[next..], None, depth))
      decreases |input| - next
    {
      ItemsUnroll(whole, input[next..], None, depth);
      r, next := ScanItem(input, next, depth);
      if r.Err? { return; }
    }
    Drop(input, next, 1);
    return Ok(()), next + 1;
  }

  /** One entry of a map: its key's content, and what is behind its value. */
  ghost function ReadEntry(s: bytes, counted: bool, seen: set<bytes>, depth: nat): (r: Parsed<bytes>)
    ensures r.Got? ==> |r.rest| + 2 <= |s|
  {
    var (key, s1) :- ReadKey(s);
    if Content(key) in seen then Fail(InvalidMap)
    else if !counted && AtBreak(s1) then Fail(Malformed)
    else
      var (value, s2) :- ReadItem(s1, depth);
      Got(Content(key), s2)
  }

  method ScanEntry(input: bytes, offset: nat, counted: bool, seen: set<bytes>, depth: nat)
    returns (r: Result<bytes, CborError>, next: nat)
    requires offset <= |input|
    ensures Follows(input, r, next, ReadEntry(input[offset..], counted, seen, depth))
    ensures r.Ok? ==> offset + 2 <= next && r.value == ReadEntry(input[offset..], counted, seen, depth).value
    decreases |input| - offset, 1
  {
    r, next := ScanTextKey(input, offset);
    if r.Err? { return; }
    if r.value in seen { return Err(InvalidMap), next; }
    if !counted && next < |input| && input[next] == BREAK { return Err(Malformed), next; }
    var value;
    value, next := ScanItem(input, next, depth);
    if value.Err? { return Err(value.error), next; }
  }

  /** One more entry of a read that is to end as `whole` did. */
  lemma EntriesUnroll(whole: Parsed<seq<Entry>>, s: bytes, left: Option<nat>, seen: set<bytes>, depth: nat)
    requires !Done(s, left) && SameEnd(whole, ReadEntries(s, left, seen, depth))
    ensures match ReadEntry(s, left.Some?, seen, depth)
      case Fail(e) => whole == Fail(e)
      case Got(key, t) => SameEnd(whole, ReadEntries(t, OneLess(left), seen + {key}, depth))
  {
  }

  method ScanMap(input: bytes, offset: nat, additional: int, depth: nat)
    returns (r: Result<(), CborError>, next: nat)
    requires offset <= |input| && 0 <= additional < 32
    ensures Follows(input, r, next, ReadMap(input[offset..], additional, depth))
    ensures r.Ok? ==> offset <= next
    ensures r.Ok? ==>
      var count := ReadArgument(input[offset..], additional).value;
      count.Some? ==> offset + 2 * Argument(count.value) <= next
    decreases |input| - offset, 2
  {
    var count;
    count, next := ScanArgument(input, offset, additional);
    if count.Err? { return Err(count.error), next; }
    ghost var start := next;
    ghost var whole := ReadEntries(input[next..], count.value, {}, depth + 1);
    var seen: set<bytes> := {};
    var left := count.value;
    while left.None? || left.value > 0
      invariant left.None? == count.value.None? && start <= next <= |input|
      invariant left.Some? ==> 0 <= left.value <= count.value.value
                               && start + 2 * (count.value.value - left.value) <= next
      invariant SameEnd(whole, ReadEntries(input[next..], left, seen, depth + 1))
      decreases |input| - next
    {
      if left.None? && next < |input| && input[next] == BREAK {
        Drop(input, next, 1);
        return Ok(()), next + 1;
      }
      EntriesUnroll(whole, input[next..], left, seen, depth + 1);
      var key;
      key, next := ScanEntry(input, next, left.Some?, seen, depth + 1);
      if key.Err? { return Err(key.error), next; }
      seen := seen + {key.value};
      left := OneLess(left);
    }
    r := Ok(());
  }

  /** The preflight accepts exactly the encodings of one tree of the grammar. */
  method ScanCbor(input: bytes) returns (r: Result<(), CborError>)
    ensures r.Ok? <==> exists item :: Valid(item, 0) && Encode(item) == input
    ensures r == Err(TrailingData) <==>
            exists item, rest :: Valid(item, 0) && rest != [] && Encode(item) + rest == input
  {
    var next;
    r, next := ScanItem(input, 0, 0);
    assert input[0..] == input;
    CborTheorems.Accepts(input);
    if r.Err? { return; }
    if next != |input| { return Err(TrailingData); }
  }
}
