/**
 JSON values and their canonical text (RFC 8785 restricted to integers), after
 crates/conveyance-crypto/src/canonical_json.rs.

 The specification is `Text`; the writers below it are the source's loops, proved to
 append exactly that text.
 */
module Json {
  import opened Wrappers
  import Hex
  import Utf16

  /** The integers a JSON number holds exactly: the union of i64 and u64. */
  type JsonInt = n: int | -0x8000_0000_0000_0000 <= n < 0x1_0000_0000_0000_0000

  datatype Value =
    | Null
    | Bool(b: bool)
    | Integer(n: JsonInt)
    | Float(f: real)
    | String(s: string)
    | Array(items: seq<Value>)
    | Object(members: map<string, Value>)

  datatype CanonicalError = OutsideCanonicalDomain

  /** No float anywhere inside. */
  predicate InDomain(v: Value) {
    match v
    case Float(_) => false
    case Array(items) => forall i :: 0 <= i < |items| ==> InDomain(items[i])
    case Object(members) => forall k :: k in members ==> InDomain(members[k])
    case _ => true
  }

  // ---- the text of scalars -------------------------------------------------------

  predicate IsDigit(c: char) {
    '0' <= c <= '9'
  }

  function Decimal(n: nat): (t: string)
    ensures t != [] && IsDigit(t[0])
  {
    if n < 10 then [Hex.Digit(n)] else Decimal(n / 10) + [Hex.Digit(n % 10)]
  }

  function IntText(n: int): string {
    if n < 0 then "-" + Decimal(-n) else Decimal(n)
  }

  function Escape(c: char): string {
    if c == '"' then "\\\""
    else if c == '\\' then "\\\\"
    else if c == '\U{08}' then "\\b"
    else if c == '\U{09}' then "\\t"
    else if c == '\U{0A}' then "\\n"
    else if c == '\U{0C}' then "\\f"
    else if c == '\U{0D}' then "\\r"
    else if c as int < 0x20 then "\\u00" + [Hex.Digit(c as int / 16), Hex.Digit(c as int % 16)]
    else [c]
  }

  function EscapeAll(s: string): string {
    if s == [] then [] else Escape(s[0]) + EscapeAll(s[1..])
  }

  function StringText(s: string): string {
    "\"" + EscapeAll(s) + "\""
  }

  // ---- the text of values --------------------------------------------------------

  ghost function Text(v: Value): string
    requires InDomain(v)
    decreases v
  {
    match v
    case Null => "null"
    case Bool(b) => if b then "true" else "false"
    case Integer(n) => IntText(n)
    case String(s) => StringText(s)
    case Array(items) => "[" + ItemsText(v, 0) + "]"
    case Object(members) => "{" + MembersText(v, Utf16.Sorted(members.Keys), true) + "}"
  }

  function Comma(first: bool): string {
    if first then "" else ","
  }

  /** The items of an array from index i on, each but item 0 behind its comma. */
  ghost function ItemsText(v: Value, i: nat): string
    requires v.Array? && InDomain(v) && i <= |v.items|
    decreases v, |v.items| - i
  {
    if i == |v.items| then ""
    else Comma(i == 0) + Text(v.items[i]) + ItemsText(v, i + 1)
  }

  /** The members named by ks, in that order. */
  ghost function MembersText(v: Value, ks: seq<string>, first: bool): string
    requires v.Object? && InDomain(v) && forall k :: k in ks ==> k in v.members
    decreases v, |ks|
  {
    if ks == [] then ""
    else
      Comma(first) + StringText(ks[0]) + ":" + Text(v.members[ks[0]]) + MembersText(v, ks[1..], false)
  }

  // ---- the writers ---------------------------------------------------------------

  method WriteString(s: string, out: string) returns (text: string)
    ensures text == out + StringText(s)
  {
    text := out + "\"";
    for i := 0 to |s|
      invariant text + EscapeAll(s[i..]) == out + "\"" + EscapeAll(s)
    {
      EscapeUnfold(s, i, text);
      text := text + Escape(s[i]);
    }
    assert text + [] == text;
    text := text + "\"";
    Regroup(out, "\"", EscapeAll(s), "\"");
  }

  lemma EscapeUnfold(s: string, i: nat, text: string)
    requires i < |s|
    ensures text + EscapeAll(s[i..]) == text + Escape(s[i]) + EscapeAll(s[i + 1..])
  {
    assert s[i..][0] == s[i] && s[i..][1..] == s[i + 1..];
    Associate(text, Escape(s[i]), EscapeAll(s[i + 1..]));
  }

  method WriteNumber(number: Value, out: string) returns (r: Result<string, CanonicalError>)
    requires number.Integer? || number.Float?
    ensures r == if InDomain(number) then Ok(out + Text(number)) else Err(OutsideCanonicalDomain)
  {
    match number
    case Integer(n) =>
      if 0 <= n {
        return Ok(out + Decimal(n));
      } else {
        return Ok(out + IntText(n));
      }
    case Float(_) => return Err(OutsideCanonicalDomain);
  }

  /** The keys of a map in whatever order it happens to yield them. */
  method CollectKeys(members: map<string, Value>) returns (keys: seq<string>)
    ensures Utf16.Distinct(keys) && Utf16.Keys(keys) == members.Keys
  {
    keys := [];
    var todo := members.Keys;
    while todo != {}
      invariant todo <= members.Keys && Utf16.Distinct(keys)
      invariant Utf16.Keys(keys) == members.Keys - todo
    {
      var k :| k in todo;
      Utf16.KeysAppend(keys, k);
      todo := todo - {k};
      keys := keys + [k];
    }
  }

  method WriteValue(value: Value, out: string) returns (r: Result<string, CanonicalError>)
    ensures r == if InDomain(value) then Ok(out + Text(value)) else Err(OutsideCanonicalDomain)
    decreases value
  {
    match value
    case Null => return Ok(out + "null");
    case Bool(b) => return Ok(out + if b then "true" else "false");
    case Integer(_) => r := WriteNumber(value, out);
    case Float(_) => r := WriteNumber(value, out);
    case String(s) =>
      var text := WriteString(s, out);
      return Ok(text);
    case Array(_) => r := WriteArray(value, out);
    case Object(_) => r := WriteObject(value, out);
  }

  method WriteArray(value: Value, out: string) returns (r: Result<string, CanonicalError>)
    requires value.Array?
    ensures r == if InDomain(value) then Ok(out + Text(value)) else Err(OutsideCanonicalDomain)
    decreases value, 0
  {
    var text := out + "[";
    for i := 0 to |value.items|
      invariant forall j :: 0 <= j < i ==> InDomain(value.items[j])
      invariant InDomain(value) ==> text + ItemsText(value, i) == out + "[" + ItemsText(value, 0)
    {
      var item := WriteValue(value.items[i], text + Comma(i == 0));
      if item.Err? { return item; }
      if InDomain(value) {
        Regroup(text, Comma(i == 0), Text(value.items[i]), ItemsText(value, i + 1));
      }
      text := item.value;
    }
    assert text + "" == text;
    Regroup(out, "[", ItemsText(value, 0), "]");
    return Ok(text + "]");
  }

  method WriteObject(value: Value, out: string) returns (r: Result<string, CanonicalError>)
    requires value.Object?
    ensures r == if InDomain(value) then Ok(out + Text(value)) else Err(OutsideCanonicalDomain)
    decreases value, 2
  {
    var collected := CollectKeys(value.members);
    var keys := Utf16.SortKeys(collected);
    assert forall k :: k in keys <==> k in Utf16.Keys(keys);
    r := WriteMembers(value, keys, out + "{");
    if r.Ok? {
      Regroup(out, "{", MembersText(value, keys, true), "}");
      r := Ok(r.value + "}");
    }
  }

  method WriteMember(value: Value, k: string, first: bool, out: string) returns (r: Result<string, CanonicalError>)
    requires value.Object? && k in value.members
    ensures r == if InDomain(value.members[k])
                 then Ok(out + Comma(first) + StringText(k) + ":" + Text(value.members[k]))
                 else Err(OutsideCanonicalDomain)
    decreases value, 0
  {
    var named := WriteString(k, out + Comma(first));
    r := WriteValue(value.members[k], named + ":");
  }

  method WriteMembers(value: Value, keys: seq<string>, out: string) returns (r: Result<string, CanonicalError>)
    requires value.Object? && forall k :: k in keys <==> k in value.members
    ensures r == if InDomain(value) then Ok(out + MembersText(value, keys, true)) else Err(OutsideCanonicalDomain)
    decreases value, 1
  {
    var text := out;
    for i := 0 to |keys|
      invariant Wrote(value, keys, i, out, text)
    {
      r := WriteMember(value, keys[i], i == 0, text);
      if r.Err? {
        OneOutside(value, keys[i]);
        return;
      }
      WroteOne(value, keys, i, out, text, r.value);
      text := r.value;
    }
    WroteAll(value, keys, out, text);
    r := Ok(text);
  }

  /** The first i members are written, if the others can be too. */
  ghost predicate Wrote(value: Value, keys: seq<string>, i: nat, out: string, text: string)
    requires value.Object? && (forall k :: k in keys ==> k in value.members) && i <= |keys|
  {
    && (forall j :: 0 <= j < i ==> InDomain(value.members[keys[j]]))
    && (InDomain(value) ==> text + MembersText(value, keys[i..], i == 0) == out + MembersText(value, keys, true))
  }

  lemma OneOutside(value: Value, k: string)
    requires value.Object? && k in value.members && !InDomain(value.members[k])
    ensures !InDomain(value)
  {
  }

  lemma WroteOne(value: Value, keys: seq<string>, i: nat, out: string, text: string, more: string)
    requires value.Object? && (forall k :: k in keys ==> k in value.members) && i < |keys|
    requires Wrote(value, keys, i, out, text) && InDomain(value.members[keys[i]])
    requires more == text + Comma(i == 0) + StringText(keys[i]) + ":" + Text(value.members[keys[i]])
    ensures Wrote(value, keys, i + 1, out, more)
  {
    if InDomain(value) { MembersTextUnfold(value, keys, i, text); }
  }

  lemma WroteAll(value: Value, keys: seq<string>, out: string, text: string)
    requires value.Object? && (forall k :: k in keys <==> k in value.members) && Wrote(value, keys, |keys|, out, text)
    ensures InDomain(value) && text == out + MembersText(value, keys, true)
  {
    assert text + "" == text;
    assert forall k :: k in value.members ==> exists j :: 0 <= j < |keys| && keys[j] == k;
  }

  lemma MembersTextUnfold(value: Value, keys: seq<string>, i: nat, text: string)
    requires value.Object? && InDomain(value) && (forall k :: k in keys ==> k in value.members) && i < |keys|
    ensures text + MembersText(value, keys[i..], i == 0)
         == text + Comma(i == 0) + StringText(keys[i]) + ":" + Text(value.members[keys[i]])
            + MembersText(value, keys[i + 1..], false)
  {
    assert keys[i..][0] == keys[i] && keys[i..][1..] == keys[i + 1..];
    RegroupMember(text, Comma(i == 0), StringText(keys[i]), Text(value.members[keys[i]]),
                  MembersText(value, keys[i + 1..], false));
  }

  lemma RegroupMember(text: string, comma: string, key: string, value: string, tail: string)
    ensures text + comma + key + ":" + value + tail == text + (comma + key + ":" + value + tail)
  {
  }
}
