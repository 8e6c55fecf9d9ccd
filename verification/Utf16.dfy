/**
 The UTF-16 code-unit order on strings that section 3.2.3 of RFC 8785 asks for.

 A Dafny `char` is a Unicode scalar value, as a Rust `char` is, so a `string` here is
 exactly a Rust `String`.
 */
module Utf16 {

  /** The code units of one scalar value: itself, or a surrogate pair. */
  function Units(c: char): (us: seq<int>)
    ensures 1 <= |us| <= 2
    ensures |us| == 2 <==> 0xD800 <= us[0] < 0xDC00
  {
    var n := c as int;
    if n < 0x10000 then [n]
    else [0xD800 + (n - 0x10000) / 0x400, 0xDC00 + (n - 0x10000) % 0x400]
  }

  function Encode(s: string): seq<int> {
    if s == [] then [] else Units(s[0]) + Encode(s[1..])
  }

  /** Strict lexicographic order on code-unit sequences. */
  predicate Less(a: seq<int>, b: seq<int>) {
    b != [] && (a == [] || a[0] < b[0] || (a[0] == b[0] && Less(a[1..], b[1..])))
  }

  predicate KeyLess(a: string, b: string) {
    Less(Encode(a), Encode(b))
  }

  predicate Ascending(ks: seq<string>) {
    forall i, j :: 0 <= i < j < |ks| ==> KeyLess(ks[i], ks[j])
  }

  lemma {:induction false} LessIrreflexive(a: seq<int>)
    ensures !Less(a, a)
    decreases |a|
  {
    if a != [] { LessIrreflexive(a[1..]); }
  }

  lemma {:induction false} LessTransitive(a: seq<int>, b: seq<int>, c: seq<int>)
    requires Less(a, b) && Less(b, c)
    ensures Less(a, c)
    decreases |a|
  {
    if a != [] && a[0] == b[0] == c[0] {
      LessTransitive(a[1..], b[1..], c[1..]);
    }
  }

  lemma {:induction false} LessTotal(a: seq<int>, b: seq<int>)
    ensures a == b || Less(a, b) || Less(b, a)
    decreases |a|
  {
    if a != [] && b != [] && a[0] == b[0] {
      LessTotal(a[1..], b[1..]);
      assert a == [a[0]] + a[1..] && b == [b[0]] + b[1..];
    }
  }

  /** A scalar value of the basic plane is its own unit; any other is the pair that section 2 of RFC 2781 gives it. */
  lemma UnitsAre(c: char)
    ensures c as int < 0x10000 ==> Units(c) == [c as int]
    ensures c as int >= 0x10000 ==>
      && |Units(c)| == 2 && 0xD800 <= Units(c)[0] < 0xDC00 && 0xDC00 <= Units(c)[1] < 0xE000
      && 0x10000 + (Units(c)[0] - 0xD800) * 0x400 + (Units(c)[1] - 0xDC00) == c as int
  {
  }

  /** Smaller at the first difference, or a proper prefix. */
  predicate FirstDiffers(a: seq<int>, b: seq<int>, i: nat) {
    i <= |a| && i <= |b| && a[..i] == b[..i] && i < |b| && (i == |a| || a[i] < b[i])
  }

  lemma {:induction false} LessIff(a: seq<int>, b: seq<int>)
    ensures Less(a, b) <==> exists i: nat :: FirstDiffers(a, b, i)
    decreases |a|
  {
    if a != [] && b != [] && a[0] == b[0] {
      LessIff(a[1..], b[1..]);
      assert a == [a[0]] + a[1..] && b == [b[0]] + b[1..];
      forall i: nat ensures FirstDiffers(a[1..], b[1..], i) <==> FirstDiffers(a, b, i + 1) {
        DiffersShift(a, b, i);
      }
      if i: nat :| FirstDiffers(a, b, i) { assert FirstDiffers(a[1..], b[1..], i - 1); }
    } else if a != [] && b != [] {
      forall i: nat | FirstDiffers(a, b, i) ensures i == 0 {
      }
      assert a[0] < b[0] ==> FirstDiffers(a, b, 0);
    } else {
      assert a == [] && b != [] ==> FirstDiffers(a, b, 0);
    }
  }

  lemma DiffersShift(a: seq<int>, b: seq<int>, i: nat)
    requires a != [] && b != [] && a[0] == b[0]
    ensures FirstDiffers(a[1..], b[1..], i) <==> FirstDiffers(a, b, i + 1)
  {
    if i <= |a| - 1 && i <= |b| - 1 {
      assert a[..i + 1] == [a[0]] + a[1..][..i] && b[..i + 1] == [b[0]] + b[1..][..i];
      assert a[..i + 1] == b[..i + 1] ==> a[..i + 1][1..] == b[..i + 1][1..];
    }
  }

  lemma UnitsInjective(c: char, d: char, s: seq<int>, t: seq<int>)
    requires Units(c) + s == Units(d) + t
    ensures c == d && s == t
  {
    var left, right := Units(c) + s, Units(d) + t;
    assert left[0] == Units(c)[0] && right[0] == Units(d)[0];
    if |Units(c)| == 2 {
      assert left[1] == Units(c)[1] && right[1] == Units(d)[1];
    }
    assert s == left[|Units(c)|..] && t == right[|Units(d)|..];
  }

  /** The encoding loses nothing, so the order on keys is total. */
  lemma {:induction false} EncodeInjective(a: string, b: string)
    requires Encode(a) == Encode(b)
    ensures a == b
    decreases |a|
  {
    if a != [] && b != [] {
      UnitsInjective(a[0], b[0], Encode(a[1..]), Encode(b[1..]));
      EncodeInjective(a[1..], b[1..]);
      assert a == [a[0]] + a[1..] && b == [b[0]] + b[1..];
    }
  }

  lemma KeyLessStrict(a: string, b: string)
    ensures !KeyLess(a, a)
    ensures KeyLess(a, b) ==> !KeyLess(b, a)
    ensures a == b || KeyLess(a, b) || KeyLess(b, a)
  {
    LessIrreflexive(Encode(a));
    LessTotal(Encode(a), Encode(b));
    if KeyLess(a, b) && KeyLess(b, a) {
      LessTransitive(Encode(a), Encode(b), Encode(a));
    }
    if Encode(a) == Encode(b) { EncodeInjective(a, b); }
  }

  ghost function Keys(ks: seq<string>): set<string> {
    set k | k in ks
  }

  /** Sorting has one possible result: two ascending lists of the same keys are the same list. */
  lemma {:induction false} AscendingUnique(a: seq<string>, b: seq<string>)
    requires Ascending(a) && Ascending(b)
    requires Keys(a) == Keys(b)
    ensures a == b
    decreases |a|
  {
    if a == [] {
      if b != [] { NonemptyKeys(b); }
    } else {
      assert a[0] in Keys(b);
      HeadIsLeast(a, b);
      HeadIsLeast(b, a);
      KeyLessStrict(a[0], b[0]);
      TailKeys(a);
      TailKeys(b);
      AscendingUnique(a[1..], b[1..]);
      assert a == [a[0]] + a[1..] && b == [b[0]] + b[1..];
    }
  }

  lemma NonemptyKeys(ks: seq<string>)
    requires ks != []
    ensures Keys(ks) != {}
  {
    assert ks[0] in Keys(ks);
  }

  lemma HeadIsLeast(a: seq<string>, b: seq<string>)
    requires Ascending(a) && a != []
    requires b != [] && b[0] in Keys(a)
    ensures b[0] == a[0] || KeyLess(a[0], b[0])
  {
    var i :| 0 <= i < |a| && a[i] == b[0];
  }

  lemma TailKeys(a: seq<string>)
    requires Ascending(a) && a != []
    ensures Ascending(a[1..]) && Keys(a[1..]) == Keys(a) - {a[0]}
  {
    KeyLessStrict(a[0], a[0]);
    assert forall k :: k in a <==> k == a[0] || k in a[1..];
  }

  /** Place one more key into an ascending list. */
  function Insert(ks: seq<string>, k: string): (r: seq<string>)
    requires Ascending(ks) && k !in ks
    ensures Ascending(r) && Keys(r) == Keys(ks) + {k}
  {
    if ks == [] then [k]
    else if KeyLess(k, ks[0]) then
      InsertAtHead(ks, k);
      [k] + ks
    else
      var tail := Insert(ks[1..], k);
      InsertBelowHead(ks, k, tail);
      [ks[0]] + tail
  }

  lemma InsertAtHead(ks: seq<string>, k: string)
    requires Ascending(ks) && ks != [] && KeyLess(k, ks[0])
    ensures Ascending([k] + ks) && Keys([k] + ks) == Keys(ks) + {k}
  {
    forall j | 0 < j < |ks| ensures KeyLess(k, ks[j]) {
      LessTransitive(Encode(k), Encode(ks[0]), Encode(ks[j]));
    }
  }

  lemma InsertBelowHead(ks: seq<string>, k: string, tail: seq<string>)
    requires Ascending(ks) && ks != [] && !KeyLess(k, ks[0]) && k !in ks
    requires Ascending(tail) && Keys(tail) == Keys(ks[1..]) + {k}
    ensures Ascending([ks[0]] + tail) && Keys([ks[0]] + tail) == Keys(ks) + {k}
  {
    KeyLessStrict(k, ks[0]);
    TailKeys(ks);
    forall j | 0 <= j < |tail| ensures KeyLess(ks[0], tail[j]) {
      assert tail[j] in Keys(tail);
      if tail[j] != k {
        var i :| 0 <= i < |ks[1..]| && ks[1..][i] == tail[j];
      }
    }
    assert forall x :: x in [ks[0]] + tail <==> x == ks[0] || x in tail;
    assert ks[0] in Keys(ks);
  }

  /** The keys of an object in the order they are written. */
  ghost function Sorted(keys: set<string>): (ks: seq<string>)
    ensures Ascending(ks) && Keys(ks) == keys
  {
    if keys == {} then []
    else
      var k :| k in keys;
      Insert(Sorted(keys - {k}), k)
  }

  predicate Distinct(ks: seq<string>) {
    forall i, j :: 0 <= i < j < |ks| ==> ks[i] != ks[j]
  }

  lemma AscendingDistinct(ks: seq<string>)
    requires Ascending(ks)
    ensures Distinct(ks)
  {
    forall i, j | 0 <= i < j < |ks| ensures ks[i] != ks[j] {
      KeyLessStrict(ks[i], ks[j]);
    }
  }

  lemma KeysAppend(ks: seq<string>, k: string)
    requires Distinct(ks) && k !in Keys(ks)
    ensures Distinct(ks + [k]) && Keys(ks + [k]) == Keys(ks) + {k}
  {
    assert forall x :: x in ks ==> x in Keys(ks);
    assert forall x :: x in ks + [k] <==> x in ks || x == k;
  }

  /** Sort the keys a map yields, in whatever order it yields them. */
  method SortKeys(keys: seq<string>) returns (ks: seq<string>)
    requires Distinct(keys)
    ensures ks == Sorted(Keys(keys))
  {
    ks := [];
    for i := 0 to |keys|
      invariant Ascending(ks) && Keys(ks) == Keys(keys[..i])
    {
      assert keys[i] !in Keys(keys[..i]);
      assert keys[..i + 1] == keys[..i] + [keys[i]];
      ks := Insert(ks, keys[i]);
    }
    assert keys[..|keys|] == keys;
    AscendingUnique(ks, Sorted(Keys(keys)));
  }
}
