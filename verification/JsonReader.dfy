/**
 A strict reader of canonical JSON, after sections 3.2.2 and 3.2.3 of RFC 8785: no leading
 zeros, each character escaped in its one prescribed way, member names strictly ascending by
 UTF-16 code units. It inverts the canonical writer and accepts nothing else. So canonical
 text is unambiguous: signatures, the approval binding and the hash chain all compare such
 text, or hashes of it, and mean the values behind it.
 */
module JsonReader {
  import opened Wrappers
  import opened Json
  import Hex
  import Utf16

  datatype Parsed<+T> = Fail | Got(value: T, rest: string) {
    predicate IsFailure() { Fail? }
    function PropagateFailure<U>(): Parsed<U> requires Fail? { Fail }
    function Extract(): (T, string) requires Got? { (value, rest) }
  }

  predicate NoDigitNext(s: string) {
    s == [] || !IsDigit(s[0])
  }

  /** Reads decimal digits for as long as there are any, on top of acc. */
  function ReadNat(s: string, acc: nat): (r: (nat, string))
    ensures |r.1| <= |s|
  {
    if NoDigitNext(s) then (acc, s)
    else ReadNat(s[1..], 10 * acc + (s[0] as int - '0' as int))
  }

  /** No digit follows a leading zero, and zero has no sign. */
  function ReadInt(s: string, negative: bool): (r: Parsed<Value>)
    ensures r.Got? ==> |r.rest| < |s|
  {
    if NoDigitNext(s) then Fail
    else if s[0] == '0' then
      if negative || !NoDigitNext(s[1..]) then Fail else Got(Integer(0), s[1..])
    else
      var (n, rest) := ReadNat(s[1..], s[0] as int - '0' as int);
      var i: int := if negative then 0 - n else n;
      if -0x8000_0000_0000_0000 <= i < 0x1_0000_0000_0000_0000 then Got(Integer(i), rest) else Fail
  }

  /** The two digits of an escape that control characters without a short one get. */
  function ReadControl(hi: char, lo: char): Option<char> {
    var h, l := Hex.FromLowerHexDigit(hi), Hex.FromLowerHexDigit(lo);
    if h.None? || l.None? then None
    else
      var n := 16 * h.value + l.value;
      if n < 0x20 && n != 0x08 && n != 0x09 && n != 0x0A && n != 0x0C && n != 0x0D then Some(n as char) else None
  }

  /** One character, escaped if and only if it has to be, and then in its one way. */
  function ReadChar(s: string): (r: Parsed<char>)
    ensures r.Got? ==> |r.rest| < |s|
  {
    if s == [] || s[0] == '"' || s[0] as int < 0x20 then Fail
    else if s[0] != '\\' then Got(s[0], s[1..])
    else if |s| < 2 then Fail
    else if s[1] == '"' then Got('"', s[2..])
    else if s[1] == '\\' then Got('\\', s[2..])
    else if s[1] == 'b' then Got('\U{08}', s[2..])
    else if s[1] == 't' then Got('\U{09}', s[2..])
    else if s[1] == 'n' then Got('\U{0A}', s[2..])
    else if s[1] == 'f' then Got('\U{0C}', s[2..])
    else if s[1] == 'r' then Got('\U{0D}', s[2..])
    else if |s| < 6 || s[1..4] != "u00" || ReadControl(s[4], s[5]).None? then Fail
    else Got(ReadControl(s[4], s[5]).value, s[6..])
  }

  /** Characters up to the closing quote. */
  function ReadChars(s: string): (r: Parsed<string>)
    ensures r.Got? ==> |r.rest| < |s|
    decreases |s|
  {
    if s != [] && s[0] == '"' then Got([], s[1..])
    else
      var (c, rest) :- ReadChar(s);
      var (cs, rest') :- ReadChars(rest);
      Got([c] + cs, rest')
  }

  function ReadString(s: string): (r: Parsed<string>)
    ensures r.Got? ==> |r.rest| < |s|
  {
    if s != [] && s[0] == '"' then ReadChars(s[1..]) else Fail
  }

  /** The comma every element but the first stands behind. */
  function Separator(first: bool): string {
    if first then "" else ","
  }

  function Expect(s: string, token: string): (r: Parsed<()>)
    ensures r.Got? ==> |r.rest| == |s| - |token|
  {
    if token <= s then Got((), s[|token|..]) else Fail
  }

  function ReadLiteral(s: string, word: string, v: Value): (r: Parsed<Value>)
    requires word != []
    ensures r.Got? ==> |r.rest| < |s|
  {
    var (_, rest) :- Expect(s, word);
    Got(v, rest)
  }

  function Parse(s: string): (r: Parsed<Value>)
    ensures r.Got? ==> |r.rest| < |s|
    decreases |s|, 0
  {
    if s == [] then Fail
    else if s[0] == 'n' then ReadLiteral(s, "null", Null)
    else if s[0] == 't' then ReadLiteral(s, "true", Bool(true))
    else if s[0] == 'f' then ReadLiteral(s, "false", Bool(false))
    else if s[0] == '-' then ReadInt(s[1..], true)
    else if s[0] == '"' then
      var (t, rest) :- ReadString(s);
      Got(String(t), rest)
    else if s[0] == '[' then
      var (items, rest) :- ParseItems(s[1..], true);
      Got(Array(items), rest)
    else if s[0] == '{' then
      var (members, rest) :- ParseMembers(s[1..], None);
      Got(Object(members), rest)
    else ReadInt(s, false)
  }

  function ParseItems(s: string, first: bool): (r: Parsed<seq<Value>>)
    ensures r.Got? ==> |r.rest| < |s|
    decreases |s|, 1
  {
    if s != [] && s[0] == ']' then Got([], s[1..])
    else
      var (_, s1) :- Expect(s, Separator(first));
      var (v, s2) :- Parse(s1);
      var (vs, s3) :- ParseItems(s2, false);
      Got([v] + vs, s3)
  }

  /** Members behind the one named `last`, if there is one. */
  function ParseMembers(s: string, last: Option<string>): (r: Parsed<map<string, Value>>)
    ensures r.Got? ==> |r.rest| < |s|
    decreases |s|, 1
  {
    if s != [] && s[0] == '}' then Got(map[], s[1..])
    else
      var (_, s1) :- Expect(s, Separator(last.None?));
      var (k, s2) :- ReadString(s1);
      if last.Some? && !Utf16.KeyLess(last.value, k) then Fail
      else
        var (_, s3) :- Expect(s2, ":");
        var (v, s4) :- Parse(s3);
        var (vs, s5) :- ParseMembers(s4, Some(k));
        Got(vs[k := v], s5)
  }

  // ---- the reader undoes the writer ----------------------------------------------

  lemma {:induction false} ReadsDecimal(n: nat, rest: string)
    ensures ReadNat(Decimal(n) + rest, 0) == ReadNat(rest, n)
  {
    var d := [Hex.Digit(n % 10)];
    if n < 10 {
      assert (Decimal(n) + rest)[1..] == rest;
    } else {
      ReadsDecimal(n / 10, d + rest);
      assert Decimal(n) + rest == Decimal(n / 10) + (d + rest);
      assert (d + rest)[1..] == rest;
    }
  }

  lemma ReadsMagnitude(m: nat, negative: bool, rest: string)
    requires NoDigitNext(rest)
    requires if negative then 0 < m <= 0x8000_0000_0000_0000 else m < 0x1_0000_0000_0000_0000
    ensures ReadInt(Decimal(m) + rest, negative) == Got(Integer(if negative then 0 - m else m), rest)
  {
    var s := Decimal(m) + rest;
    DecimalLead(m);
    assert s[0] == Decimal(m)[0];
    if m == 0 {
      assert s[1..] == rest;
    } else {
      ReadsDecimal(m, rest);
    }
  }

  /** Decimal text has no leading zero. */
  lemma {:induction false} DecimalLead(n: nat)
    ensures Decimal(n)[0] == '0' <==> n == 0
    ensures n == 0 ==> Decimal(n) == "0"
  {
    if n >= 10 { DecimalLead(n / 10); }
  }

  lemma ParsesNegative(s: string, t: string)
    requires s == "-" + t
    ensures Parse(s) == ReadInt(t, true)
  {
    assert s[0] == '-' && s[1..] == t;
  }

  lemma ParsesPositive(s: string)
    requires s != [] && IsDigit(s[0])
    ensures Parse(s) == ReadInt(s, false)
  {
  }

  lemma ReadsInt(n: JsonInt, rest: string)
    requires NoDigitNext(rest)
    ensures Parse(IntText(n) + rest) == Got(Integer(n), rest)
  {
    var t := Decimal(if n < 0 then -n else n) + rest;
    if n < 0 {
      ReadsMagnitude(-n, true, rest);
      ParsesNegative(IntText(n) + rest, t);
    } else {
      ReadsMagnitude(n, false, rest);
      ParsesPositive(t);
    }
  }

  lemma ReadsChar(c: char, rest: string)
    ensures ReadChar(Escape(c) + rest) == Got(c, rest)
    ensures (Escape(c) + rest)[0] != '"'
  {
    var t := Escape(c) + rest;
    assert t[|Escape(c)|..] == rest;
    if c as int < 0x20 && |Escape(c)| == 6 {
      assert t[4] == Hex.Digit(c as int / 16) && t[5] == Hex.Digit(c as int % 16);
      assert t[1..4] == "u00";
    }
  }

  lemma ReadsCharThen(c: char, tail: string, s: string, rest: string)
    requires ReadChars(tail) == Got(s, rest)
    ensures ReadChars(Escape(c) + tail) == Got([c] + s, rest)
  {
    ReadsChar(c, tail);
  }

  lemma {:induction false} ReadsChars(s: string, rest: string)
    ensures ReadChars(EscapeAll(s) + "\"" + rest) == Got(s, rest)
    decreases |s|
  {
    var t := EscapeAll(s) + "\"" + rest;
    if s == [] {
      assert t[1..] == rest;
    } else {
      var tail := EscapeAll(s[1..]) + "\"" + rest;
      assert t == Escape(s[0]) + tail;
      ReadsChars(s[1..], rest);
      ReadsCharThen(s[0], tail, s[1..], rest);
      assert s == [s[0]] + s[1..];
    }
  }

  lemma ReadsString(s: string, rest: string)
    ensures ReadString(StringText(s) + rest) == Got(s, rest)
  {
    ReadsChars(s, rest);
    Unquoted(EscapeAll(s), rest);
  }

  lemma Unquoted(text: string, rest: string)
    ensures ("\"" + text + "\"" + rest)[0] == '"' && ("\"" + text + "\"" + rest)[1..] == text + "\"" + rest
  {
  }

  lemma TextStart(v: Value)
    requires InDomain(v)
    ensures Text(v) != [] && Text(v)[0] != ']'
  {
  }

  lemma RegroupItem(head: string, text: string, tail: string, close: string, rest: string)
    ensures head + text + tail + close + rest == head + (text + (tail + close + rest))
  {
  }

  lemma ParsesArray(items: seq<Value>, t: string, rest: string)
    requires ParseItems(t, true) == Got(items, rest)
    ensures Parse("[" + t) == Got(Array(items), rest)
  {
    assert ("[" + t)[1..] == t;
  }

  lemma ParsesObject(members: map<string, Value>, t: string, rest: string)
    requires ParseMembers(t, None) == Got(members, rest)
    ensures Parse("{" + t) == Got(Object(members), rest)
  {
    assert ("{" + t)[1..] == t;
  }

  lemma ParsesEmptyItems(first: bool, rest: string)
    ensures ParseItems("]" + rest, first) == Got([], rest)
  {
    assert ("]" + rest)[1..] == rest;
  }

  lemma ParsesItem(first: bool, s1: string, v: Value, s2: string, vs: seq<Value>, rest: string)
    requires s1 != [] && s1[0] != ']'
    requires Parse(s1) == Got(v, s2) && ParseItems(s2, false) == Got(vs, rest)
    ensures ParseItems(Comma(first) + s1, first) == Got([v] + vs, rest)
  {
    assert (Comma(first) + s1)[|Comma(first)|..] == s1;
  }

  lemma ParsesMember(last: Option<string>, k: string, s3: string, v: Value, s4: string, vs: map<string, Value>,
                     rest: string)
    requires last.Some? ==> Utf16.KeyLess(last.value, k)
    requires Parse(s3) == Got(v, s4) && ParseMembers(s4, Some(k)) == Got(vs, rest)
    ensures ParseMembers(Comma(last.None?) + StringText(k) + ":" + s3, last) == Got(vs[k := v], rest)
  {
    MemberLayout(last.None?, k, s3);
    ReadsString(k, ":" + s3);
    MemberRead(Comma(last.None?) + StringText(k) + ":" + s3, last, StringText(k) + (":" + s3), k, s3, v, s4, vs, rest);
  }

  lemma MemberRead(s: string, last: Option<string>, s1: string, k: string, s3: string, v: Value, s4: string,
                   vs: map<string, Value>, rest: string)
    requires s == Comma(last.None?) + s1 && s1 != [] && s1[0] == '"' && ReadString(s1) == Got(k, ":" + s3)
    requires last.Some? ==> Utf16.KeyLess(last.value, k)
    requires Parse(s3) == Got(v, s4) && ParseMembers(s4, Some(k)) == Got(vs, rest)
    ensures ParseMembers(s, last) == Got(vs[k := v], rest)
  {
    assert Expect(s, Separator(last.None?)) == Got((), s1) by { assert s[|Comma(last.None?)|..] == s1; }
    assert Expect(":" + s3, ":") == Got((), s3) by { assert (":" + s3)[1..] == s3; }
  }

  lemma MemberLayout(first: bool, k: string, s3: string)
    ensures var s, s1 := Comma(first) + StringText(k) + ":" + s3, StringText(k) + (":" + s3);
      s == Comma(first) + s1 && s[|Comma(first)|..] == s1 && s1[0] == '"' && (":" + s3)[1..] == s3
  {
    Associated(Comma(first), StringText(k), ":", s3);
  }

  lemma Associated(a: string, b: string, c: string, d: string)
    ensures a + b + c + d == a + (b + (c + d))
  {
  }

  /** Parsing the text of any in-domain value, with anything but a digit behind it, gives the value back. */
  lemma {:induction false} RoundTrip(v: Value, rest: string)
    requires InDomain(v) && NoDigitNext(rest)
    ensures Parse(Text(v) + rest) == Got(v, rest)
    decreases v
  {
    match v
    case Integer(n) => ReadsInt(n, rest);
    case Array(_) => RoundTripArray(v, rest);
    case Object(_) => RoundTripObject(v, rest);
    case _ => RoundTripScalar(v, rest);
  }

  lemma RoundTripScalar(v: Value, rest: string)
    requires v.Null? || v.Bool? || v.String?
    ensures Parse(Text(v) + rest) == Got(v, rest)
  {
    if v.String? {
      ReadsString(v.s, rest);
    } else {
      assert (Text(v) + rest)[|Text(v)|..] == rest;
    }
  }

  lemma {:induction false} RoundTripArray(v: Value, rest: string)
    requires v.Array? && InDomain(v)
    ensures Parse(Text(v) + rest) == Got(v, rest)
    decreases v, 1
  {
    var t := ItemsText(v, 0) + "]" + rest;
    RoundTripItems(v, 0, rest);
    ParsesArray(v.items[0..], t, rest);
    assert Text(v) + rest == "[" + t;
  }

  lemma {:induction false} RoundTripItems(v: Value, i: nat, rest: string)
    requires v.Array? && InDomain(v) && i <= |v.items|
    ensures ParseItems(ItemsText(v, i) + "]" + rest, i == 0) == Got(v.items[i..], rest)
    decreases v, 0, |v.items| - i
  {
    if i == |v.items| {
      NoItemsLeft(v, rest);
    } else {
      ItemsTextStart(v, i, rest);
      RoundTrip(v.items[i], ItemsText(v, i + 1) + "]" + rest);
      RoundTripItems(v, i + 1, rest);
      ItemBeforeItems(v, i, ItemsText(v, i + 1) + "]" + rest, rest);
    }
  }

  lemma NoItemsLeft(v: Value, rest: string)
    requires v.Array? && InDomain(v)
    ensures ParseItems(ItemsText(v, |v.items|) + "]" + rest, |v.items| == 0) == Got(v.items[|v.items|..], rest)
  {
    ParsesEmptyItems(|v.items| == 0, rest);
    assert ItemsText(v, |v.items|) == "" && v.items[|v.items|..] == [];
    assert "" + "]" + rest == "]" + rest;
  }

  lemma ItemBeforeItems(v: Value, i: nat, tail: string, rest: string)
    requires v.Array? && InDomain(v) && i < |v.items| && tail == ItemsText(v, i + 1) + "]" + rest
    requires Parse(Text(v.items[i]) + tail) == Got(v.items[i], tail)
    requires ParseItems(tail, false) == Got(v.items[i + 1..], rest)
    ensures ParseItems(ItemsText(v, i) + "]" + rest, i == 0) == Got(v.items[i..], rest)
  {
    ItemsTextStep(v, i, rest);
    ItemsTextStart(v, i, rest);
    ParsesItem(i == 0, Text(v.items[i]) + tail, v.items[i], tail, v.items[i + 1..], rest);
  }

  lemma ItemsTextStep(v: Value, i: nat, rest: string)
    requires v.Array? && InDomain(v) && i < |v.items|
    ensures ItemsText(v, i) + "]" + rest == Comma(i == 0) + (Text(v.items[i]) + (ItemsText(v, i + 1) + "]" + rest))
    ensures v.items[i..] == [v.items[i]] + v.items[i + 1..]
  {
    RegroupItem(Comma(i == 0), Text(v.items[i]), ItemsText(v, i + 1), "]", rest);
  }

  lemma ItemsTextStart(v: Value, i: nat, rest: string)
    requires v.Array? && InDomain(v) && i < |v.items|
    ensures Text(v.items[i]) != [] && Text(v.items[i])[0] != ']'
    ensures NoDigitNext(ItemsText(v, i + 1) + "]" + rest)
  {
    TextStart(v.items[i]);
  }

  ghost function Restrict(members: map<string, Value>, ks: seq<string>): map<string, Value>
    requires forall k :: k in ks ==> k in members
  {
    map k | k in ks :: members[k]
  }

  lemma {:induction false} RoundTripObject(v: Value, rest: string)
    requires v.Object? && InDomain(v)
    ensures Parse(Text(v) + rest) == Got(v, rest)
    decreases v, 1
  {
    SortedCovers(v.members);
    RoundTripMembers(v, Utf16.Sorted(v.members.Keys), None, rest);
    ObjectOfMembers(v, Utf16.Sorted(v.members.Keys), rest);
  }

  lemma ObjectOfMembers(v: Value, ks: seq<string>, rest: string)
    requires v.Object? && InDomain(v) && ks == Utf16.Sorted(v.members.Keys) && forall k :: k in ks ==> k in v.members
    requires ParseMembers(MembersText(v, ks, true) + "}" + rest, None) == Got(v.members, rest)
    ensures Parse(Text(v) + rest) == Got(v, rest)
  {
    var members := MembersText(v, ks, true);
    ParsesObject(v.members, members + "}" + rest, rest);
    Regroup("{", members, "}", rest);
  }

  lemma SortedCovers(members: map<string, Value>)
    ensures var ks := Utf16.Sorted(members.Keys);
      Utf16.Ascending(ks) && (forall k :: k in ks ==> k in members) && Restrict(members, ks) == members
  {
    var ks := Utf16.Sorted(members.Keys);
    assert forall k :: k in ks <==> k in Utf16.Keys(ks);
  }

  lemma {:induction false} RoundTripMembers(v: Value, ks: seq<string>, last: Option<string>, rest: string)
    requires v.Object? && InDomain(v) && Utf16.Ascending(ks) && forall k :: k in ks ==> k in v.members
    requires last.Some? && ks != [] ==> Utf16.KeyLess(last.value, ks[0])
    ensures ParseMembers(MembersText(v, ks, last.None?) + "}" + rest, last) == Got(Restrict(v.members, ks), rest)
    decreases v, 0, |ks|
  {
    if ks == [] {
      var t := "}" + rest;
      assert MembersText(v, ks, last.None?) + "}" + rest == t && t[1..] == rest;
    } else {
      var k := ks[0];
      var s4 := MembersText(v, ks[1..], false) + "}" + rest;
      RoundTrip(v.members[k], s4);
      RoundTripMembers(v, ks[1..], Some(k), rest);
      MembersTextStep(v, ks, last.None?, rest);
      RestrictStep(v.members, ks);
      ParsesMember(last, k, Text(v.members[k]) + s4, v.members[k], s4, Restrict(v.members, ks[1..]), rest);
    }
  }

  lemma MembersTextStep(v: Value, ks: seq<string>, first: bool, rest: string)
    requires v.Object? && InDomain(v) && (forall k :: k in ks ==> k in v.members) && ks != []
    ensures MembersText(v, ks, first) + "}" + rest
         == Comma(first) + StringText(ks[0]) + ":"
            + (Text(v.members[ks[0]]) + (MembersText(v, ks[1..], false) + "}" + rest))
  {
    RegroupItem(Comma(first) + StringText(ks[0]) + ":", Text(v.members[ks[0]]),
                MembersText(v, ks[1..], false), "}", rest);
  }

  lemma RestrictStep(members: map<string, Value>, ks: seq<string>)
    requires (forall k :: k in ks ==> k in members) && ks != []
    ensures Restrict(members, ks[1..])[ks[0] := members[ks[0]]] == Restrict(members, ks)
  {
    assert forall k :: k in ks <==> k == ks[0] || k in ks[1..];
  }

  /** Canonical text is unambiguous: equal text means equal values. */
  lemma TextInjective(v: Value, w: Value)
    requires InDomain(v) && InDomain(w) && Text(v) == Text(w)
    ensures v == w
  {
    RoundTrip(v, "");
    RoundTrip(w, "");
    assert Text(v) + "" == Text(v) && Text(w) + "" == Text(w);
  }
}
