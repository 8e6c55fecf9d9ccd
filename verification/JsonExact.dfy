/** What the strict reader accepts is canonical text and nothing else. */
module JsonExact {
  import opened Wrappers
  import opened Json
  import opened JsonReader
  import Hex
  import Utf16

  lemma DecimalStep(acc: nat, c: char)
    requires acc > 0 && IsDigit(c)
    ensures Decimal(10 * acc + (c as int - '0' as int)) == Decimal(acc) + [c]
  {
    var n := 10 * acc + (c as int - '0' as int);
    assert n / 10 == acc && n % 10 == c as int - '0' as int;
  }

  lemma {:induction false} NatSound(s: string, acc: nat, n: nat, rest: string)
    requires acc > 0 && ReadNat(s, acc) == (n, rest)
    ensures Decimal(acc) + s == Decimal(n) + rest && n > 0
    decreases |s|
  {
    if !NoDigitNext(s) {
      var acc' := 10 * acc + (s[0] as int - '0' as int);
      NatSound(s[1..], acc', n, rest);
      DecimalStep(acc, s[0]);
      assert Decimal(acc) + s == Decimal(acc) + [s[0]] + s[1..];
    }
  }

  lemma IntSound(s: string, negative: bool, v: Value, rest: string)
    requires ReadInt(s, negative) == Got(v, rest)
    ensures v.Integer? && (if negative then "-" + s else s) == IntText(v.n) + rest
  {
    if s[0] == '0' {
      assert s == "0" + rest;
    } else {
      var d := s[0] as int - '0' as int;
      var n := ReadNat(s[1..], d).0;
      NatSound(s[1..], d, n, rest);
      assert Decimal(d) == [s[0]] && s == [s[0]] + s[1..];
      if negative { Associate("-", Decimal(n), rest); }
    }
  }

  lemma ControlSound(hi: char, lo: char)
    requires ReadControl(hi, lo).Some?
    ensures Escape(ReadControl(hi, lo).value) == "\\u00" + [hi, lo]
  {
    var h, l := Hex.FromLowerHexDigit(hi).value, Hex.FromLowerHexDigit(lo).value;
    var c := ReadControl(hi, lo).value;
    assert c as int / 16 == h && c as int % 16 == l;
  }

  lemma CharSound(s: string, c: char, rest: string)
    requires ReadChar(s) == Got(c, rest)
    ensures s == Escape(c) + rest
  {
    if s[0] == '\\' && s[1] == 'u' {
      ControlSound(s[4], s[5]);
      assert s == [s[0]] + s[1..4] + [s[4], s[5]] + s[6..];
    }
  }

  lemma {:induction false} CharsSound(s: string, t: string, rest: string)
    requires ReadChars(s) == Got(t, rest)
    ensures s == EscapeAll(t) + "\"" + rest
    decreases |s|
  {
    if s[0] == '"' {
      assert s == [] + "\"" + rest;
    } else {
      var c, s1 := ReadChar(s).value, ReadChar(s).rest;
      CharSound(s, c, s1);
      CharsSound(s1, ReadChars(s1).value, rest);
      assert t[0] == c && t[1..] == ReadChars(s1).value;
      Regroup(Escape(c), EscapeAll(t[1..]), "\"", rest);
    }
  }

  lemma StringSound(s: string, t: string, rest: string)
    requires ReadString(s) == Got(t, rest)
    ensures s == StringText(t) + rest
  {
    CharsSound(s[1..], t, rest);
    Regroup("\"", EscapeAll(t), "\"", rest);
    assert s == "\"" + s[1..];
  }

  // ---- arrays and objects --------------------------------------------------------

  /** The text of items, one behind the other. */
  ghost function SeqText(vs: seq<Value>, first: bool): string
    requires forall i :: 0 <= i < |vs| ==> InDomain(vs[i])
  {
    if vs == [] then "" else Separator(first) + Text(vs[0]) + SeqText(vs[1..], false)
  }

  lemma {:induction false} ArrayText(v: Value, i: nat)
    requires v.Array? && InDomain(v) && i <= |v.items|
    ensures ItemsText(v, i) == SeqText(v.items[i..], i == 0)
    decreases |v.items| - i
  {
    if i < |v.items| {
      ArrayText(v, i + 1);
      assert v.items[i..][1..] == v.items[i + 1..];
    }
  }

  /** Member text depends on the members named only. */
  lemma {:induction false} SameMembers(v: Value, w: Value, ks: seq<string>, first: bool)
    requires v.Object? && w.Object? && InDomain(v) && InDomain(w)
    requires forall k :: k in ks ==> k in v.members && k in w.members && v.members[k] == w.members[k]
    ensures MembersText(v, ks, first) == MembersText(w, ks, first)
    decreases |ks|
  {
    if ks != [] { SameMembers(v, w, ks[1..], false); }
  }

  lemma {:induction false} ValueSound(s: string, v: Value, rest: string)
    requires Parse(s) == Got(v, rest)
    ensures InDomain(v) && s == Text(v) + rest
    decreases |s|, 1
  {
    if s[0] == '[' {
      ArraySound(s, v, rest);
    } else if s[0] == '{' {
      ObjectSound(s, v, rest);
    } else {
      ScalarSound(s, v, rest);
    }
  }

  lemma ScalarSound(s: string, v: Value, rest: string)
    requires Parse(s) == Got(v, rest) && s[0] != '[' && s[0] != '{'
    ensures InDomain(v) && s == Text(v) + rest
  {
    if s[0] == '"' {
      StringSound(s, v.s, rest);
    } else if s[0] == '-' {
      IntSound(s[1..], true, v, rest);
      assert s == "-" + s[1..];
    } else if s[0] == 'n' || s[0] == 't' || s[0] == 'f' {
    } else {
      IntSound(s, false, v, rest);
    }
  }

  lemma {:induction false} ArraySound(s: string, v: Value, rest: string)
    requires Parse(s) == Got(v, rest) && s[0] == '['
    ensures InDomain(v) && s == Text(v) + rest
    decreases |s|, 0
  {
    ItemsSound(s[1..], true, v.items, rest);
    ArrayText(v, 0);
    assert v.items[0..] == v.items;
    Regroup("[", SeqText(v.items, true), "]", rest);
    assert s == "[" + s[1..];
  }

  lemma {:induction false} ItemsSound(s: string, first: bool, vs: seq<Value>, rest: string)
    requires ParseItems(s, first) == Got(vs, rest)
    ensures (forall i :: 0 <= i < |vs| ==> InDomain(vs[i])) && s == SeqText(vs, first) + "]" + rest
    decreases |s|, 2
  {
    if s[0] == ']' {
      assert s == "" + "]" + rest;
    } else {
      var s1 := s[|Separator(first)|..];
      var v, s2 := Parse(s1).value, Parse(s1).rest;
      ValueSound(s1, v, s2);
      ItemsSound(s2, false, ParseItems(s2, false).value, rest);
      assert vs[0] == v && vs[1..] == ParseItems(s2, false).value;
      assert s == Separator(first) + s1;
      RegroupItem(Separator(first), Text(v), SeqText(vs[1..], false), "]", rest);
    }
  }

  lemma {:induction false} ObjectSound(s: string, v: Value, rest: string)
    requires Parse(s) == Got(v, rest) && s[0] == '{'
    ensures InDomain(v) && s == Text(v) + rest
    decreases |s|, 0
  {
    var ks := MembersSound(s[1..], None, v.members, rest);
    Utf16.AscendingUnique(ks, Utf16.Sorted(v.members.Keys));
    Regroup("{", MembersText(v, ks, true), "}", rest);
    assert s == "{" + s[1..];
  }

  /** These names, ascending behind `last`, are those of the members. */
  ghost predicate Named(ks: seq<string>, last: Option<string>, members: map<string, Value>) {
    && Utf16.Ascending(ks) && Utf16.Keys(ks) == members.Keys && InDomain(Object(members))
    && (last.Some? ==> forall i :: 0 <= i < |ks| ==> Utf16.KeyLess(last.value, ks[i]))
  }

  lemma {:induction false} MembersSound(s: string, last: Option<string>, members: map<string, Value>, rest: string)
    returns (ks: seq<string>)
    requires ParseMembers(s, last) == Got(members, rest)
    ensures Named(ks, last, members) && (forall k :: k in ks ==> k in members)
    ensures s == MembersText(Object(members), ks, last.None?) + "}" + rest
    decreases |s|, 2
  {
    if s[0] == '}' {
      ks := [];
      assert s == "" + "}" + rest;
    } else {
      var s1 := s[|Separator(last.None?)|..];
      var k, s2 := ReadString(s1).value, ReadString(s1).rest;
      var v, s4 := Parse(s2[1..]).value, Parse(s2[1..]).rest;
      var others := ParseMembers(s4, Some(k)).value;
      StringSound(s1, k, s2);
      ValueSound(s2[1..], v, s4);
      var tail := MembersSound(s4, Some(k), others, rest);
      ks := [k] + tail;
      NamedFirst(k, v, tail, last, others);
      SameMembers(Object(others), Object(members), tail, false);
      assert ks[1..] == tail;
      MembersLayout(s, s1, s2, Separator(last.None?), StringText(k), Text(v),
                    MembersText(Object(members), tail, false), s4, rest);
    }
  }

  lemma MembersLayout(s: string, s1: string, s2: string, sep: string, name: string, text: string, tail: string,
                      s4: string, rest: string)
    requires sep <= s && s1 == s[|sep|..] && s1 == name + s2 && s2 != [] && s2[0] == ':' && s2[1..] == text + s4
    requires s4 == tail + "}" + rest
    ensures s == sep + name + ":" + text + tail + "}" + rest
  {
    assert s == sep + s1 && s2 == ":" + s2[1..];
    assert sep + (name + (":" + (text + (tail + "}" + rest)))) == sep + name + ":" + text + tail + "}" + rest;
  }

  lemma NamedFirst(k: string, v: Value, tail: seq<string>, last: Option<string>, others: map<string, Value>)
    requires Named(tail, Some(k), others) && InDomain(v) && (last.Some? ==> Utf16.KeyLess(last.value, k))
    ensures Named([k] + tail, last, others[k := v]) && k !in others
    ensures forall x :: x in [k] + tail ==> x in others[k := v]
  {
    Utf16.KeyLessStrict(k, k);
    assert k !in Utf16.Keys(tail);
    if last.Some? {
      forall i | 0 <= i < |tail| ensures Utf16.KeyLess(last.value, tail[i]) {
        Utf16.LessTransitive(Utf16.Encode(last.value), Utf16.Encode(k), Utf16.Encode(tail[i]));
      }
    }
  }

  /** The reader accepts exactly the canonical text of in-domain values, with anything but a digit behind it. */
  lemma ParseExact(s: string, v: Value, rest: string)
    requires NoDigitNext(rest)
    ensures Parse(s) == Got(v, rest) <==> InDomain(v) && s == Text(v) + rest
  {
    if Parse(s) == Got(v, rest) { ValueSound(s, v, rest); }
    if InDomain(v) && s == Text(v) + rest { RoundTrip(v, rest); }
  }
}
