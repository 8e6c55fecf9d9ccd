/**
 The glob matcher of crates/conveyance-protocol/src/policy.rs: a greedy loop with one
 retry point, against the declarative meaning of `*`.

 `Loop` is the loop as a function of its variables; `GlobMatches` runs it.
 */
module Glob {
  import opened Wrappers

  /** `*` stands for any characters, every other character for itself. */
  predicate Matches(p: string, v: string)
    decreases |p| + |v|
  {
    if p == [] then v == []
    else if p[0] == '*' then Matches(p[1..], v) || (v != [] && Matches(p, v[1..]))
    else v != [] && v[0] == p[0] && Matches(p[1..], v[1..])
  }

  predicate AllStars(p: string) {
    forall i :: 0 <= i < |p| ==> p[i] == '*'
  }

  predicate Loop(pattern: string, value: string, p: nat, v: nat, star: Option<nat>, retry: nat)
    requires p <= |pattern| && retry <= v <= |value| && (star.Some? ==> star.value < |pattern|)
    decreases |value| - retry, |pattern| - p
  {
    if v == |value| then AllStars(pattern[p..])
    else if p < |pattern| && pattern[p] == value[v] then Loop(pattern, value, p + 1, v + 1, star, retry)
    else if p < |pattern| && pattern[p] == '*' then Loop(pattern, value, p + 1, v, Some(p), v)
    else if star.Some? then Loop(pattern, value, star.value + 1, retry + 1, star, retry + 1)
    else false
  }

  predicate Globs(pattern: string, value: string) {
    Loop(pattern, value, 0, 0, None, 0)
  }

  method GlobMatches(pattern: string, value: string) returns (r: bool)
    ensures r == Globs(pattern, value)
  {
    var p: nat, v: nat, star: Option<nat>, retry: nat := 0, 0, None, 0;
    while v < |value|
      invariant p <= |pattern| && retry <= v <= |value| && (star.Some? ==> star.value < |pattern|)
      invariant Globs(pattern, value) == Loop(pattern, value, p, v, star, retry)
      decreases |value| - retry, |pattern| - p
    {
      if p < |pattern| && pattern[p] == value[v] {
        p, v := p + 1, v + 1;
      } else if p < |pattern| && pattern[p] == '*' {
        star, p, retry := Some(p), p + 1, v;
      } else if star.Some? {
        retry := retry + 1;
        v, p := retry, star.value + 1;
      } else {
        return false;
      }
    }
    ghost var stars: nat := p;
    while p < |pattern| && pattern[p] == '*'
      invariant stars <= p <= |pattern| && forall i :: stars <= i < p ==> pattern[i] == '*'
    {
      p := p + 1;
    }
    assert p < |pattern| ==> pattern[stars..][p - stars] == pattern[p];
    return p == |pattern|;
  }

  // ---- what Matches means --------------------------------------------------------

  lemma {:induction false} StarsMatchNothing(p: string)
    ensures Matches(p, []) <==> AllStars(p)
    decreases |p|
  {
    if p != [] {
      StarsMatchNothing(p[1..]);
      assert p == [p[0]] + p[1..];
    }
  }

  /** Only stars match stars. */
  lemma {:induction false} OnlyStarsMatchStars(p: string, v: string)
    requires Matches(p, v) && AllStars(v)
    ensures AllStars(p)
    decreases |p| + |v|
  {
    if p != [] {
      assert p == [p[0]] + p[1..];
      if p[0] == '*' && !Matches(p[1..], v) {
        OnlyStarsMatchStars(p, v[1..]);
      } else if p[0] == '*' {
        OnlyStarsMatchStars(p[1..], v);
      }
    }
  }

  /** Plain text in front matches itself. */
  lemma {:induction false} Literal(l: string, q: string, w: string)
    requires '*' !in l
    ensures Matches(l + q, w) <==> l <= w && Matches(q, w[|l|..])
    decreases |l|
  {
    if l == [] {
      assert l + q == q && w[0..] == w;
    } else {
      assert (l + q)[1..] == l[1..] + q && (l + q)[0] == l[0];
      if w != [] {
        Literal(l[1..], q, w[1..]);
        assert |l| <= |w| ==> w[1..][|l| - 1..] == w[|l|..];
        assert l == [l[0]] + l[1..] && w == [w[0]] + w[1..];
      }
    }
  }

  /** A leading star leaves some rest of the value to what follows it. */
  lemma {:induction false} StarLeaves(p: string, v: string) returns (k: nat)
    requires p != [] && p[0] == '*' && Matches(p, v)
    ensures k <= |v| && Matches(p[1..], v[k..])
    decreases |v|
  {
    if Matches(p[1..], v) {
      k := 0;
      assert v[0..] == v;
    } else {
      k := StarLeaves(p, v[1..]);
      assert v[1..][k..] == v[k + 1..];
      k := k + 1;
    }
  }

  lemma {:induction false} StarTakes(p: string, v: string, k: nat)
    requires p != [] && p[0] == '*' && k <= |v| && Matches(p, v[k..])
    ensures Matches(p, v)
    decreases k
  {
    if k == 0 {
      assert v[0..] == v;
    } else {
      assert v[1..][k - 1..] == v[k..];
      StarTakes(p, v[1..], k - 1);
    }
  }

  // ---- the loop is sound ---------------------------------------------------------

  /** What the loop may still find: a match from here, or one from its retry point. */
  predicate Findable(pattern: string, value: string, p: nat, v: nat, star: Option<nat>, retry: nat)
    requires p <= |pattern| && retry <= v <= |value| && (star.Some? ==> star.value < |pattern|)
  {
    Matches(pattern[p..], value[v..]) || (star.Some? && Matches(pattern[star.value..], value[retry..]))
  }

  lemma {:induction false} LoopSound(pattern: string, value: string, p: nat, v: nat, star: Option<nat>, retry: nat)
    requires p <= |pattern| && retry <= v <= |value|
    requires star.Some? ==> star.value < |pattern| && pattern[star.value] == '*'
    requires Loop(pattern, value, p, v, star, retry)
    ensures Findable(pattern, value, p, v, star, retry)
    decreases |value| - retry, |pattern| - p
  {
    if v == |value| {
      StarsMatchNothing(pattern[p..]);
    } else if p < |pattern| && pattern[p] == value[v] {
      LoopSound(pattern, value, p + 1, v + 1, star, retry);
    } else if p < |pattern| && pattern[p] == '*' {
      LoopSound(pattern, value, p + 1, v, Some(p), v);
    } else {
      LoopSound(pattern, value, star.value + 1, retry + 1, star, retry + 1);
    }
  }

  /** A true answer is always right. */
  lemma GlobIsSound(pattern: string, value: string)
    requires Globs(pattern, value)
    ensures Matches(pattern, value)
  {
    LoopSound(pattern, value, 0, 0, None, 0);
    assert pattern[0..] == pattern && value[0..] == value;
  }

  // ---- when it is complete -------------------------------------------------------

  /** No star in the value, but possibly as its last character. */
  predicate StarOnlyLast(value: string) {
    forall i :: 0 <= i < |value| - 1 ==> value[i] != '*'
  }

  /** Since the retry point the loop has matched plain text only. */
  predicate Plain(pattern: string, value: string, p: nat, v: nat, s: nat, retry: nat) {
    && s < p <= |pattern| && retry <= v <= |value| && pattern[s] == '*'
    && pattern[s + 1..p] == value[retry..v] && '*' !in pattern[s + 1..p]
  }

  lemma PlainGrows(pattern: string, value: string, p: nat, v: nat, s: nat, retry: nat)
    requires Plain(pattern, value, p, v, s, retry) && p < |pattern| && v < |value| && pattern[p] == value[v] != '*'
    ensures Plain(pattern, value, p + 1, v + 1, s, retry)
  {
    assert pattern[s + 1..p + 1] == pattern[s + 1..p] + [pattern[p]];
    assert value[retry..v + 1] == value[retry..v] + [value[v]];
  }

  /** A match from the retry point passes through the plain text at or behind it. */
  lemma ThroughPlain(pattern: string, value: string, p: nat, v: nat, s: nat, retry: nat) returns (k: nat)
    requires Plain(pattern, value, p, v, s, retry) && Matches(pattern[s..], value[retry..])
    ensures v <= k <= |value| && Matches(pattern[p..], value[k..])
    ensures k == v || Matches(pattern[s + 1..], value[retry + (k - v)..])
  {
    var l := pattern[s + 1..p];
    assert pattern[s..][1..] == pattern[s + 1..] && pattern[s..][0] == pattern[s];
    var j := StarLeaves(pattern[s..], value[retry..]);
    assert value[retry..][j..] == value[retry + j..];
    assert pattern[s + 1..] == l + pattern[p..];
    Literal(l, pattern[p..], value[retry + j..]);
    k := retry + j + |l|;
    assert value[retry + j..][|l|..] == value[k..];
  }

  /** What is left to find: from the retry point if there is one, else from here. */
  predicate Target(pattern: string, value: string, p: nat, v: nat, star: Option<nat>, retry: nat)
    requires p <= |pattern| && retry <= v <= |value| && (star.Some? ==> star.value < |pattern|)
  {
    if star.Some? then Matches(pattern[star.value..], value[retry..]) else Matches(pattern[p..], value[v..])
  }

  lemma EndComplete(pattern: string, value: string, p: nat, star: Option<nat>, retry: nat)
    requires p <= |pattern| && retry <= |value|
    requires star.Some? ==> Plain(pattern, value, p, |value|, star.value, retry)
    requires Target(pattern, value, p, |value|, star, retry)
    ensures AllStars(pattern[p..])
  {
    if star.Some? {
      var k := ThroughPlain(pattern, value, p, |value|, star.value, retry);
    }
    StarsMatchNothing(pattern[p..]);
    assert value[|value|..] == [];
  }

  lemma LastStarComplete(pattern: string, value: string, p: nat, star: Option<nat>, retry: nat)
    requires p < |pattern| && retry < |value| && value[|value| - 1] == '*'
    requires star.Some? ==> Plain(pattern, value, p, |value| - 1, star.value, retry)
    requires Target(pattern, value, p, |value| - 1, star, retry)
    ensures AllStars(pattern[p + 1..])
  {
    var k := |value| - 1;
    if star.Some? { k := ThroughPlain(pattern, value, p, |value| - 1, star.value, retry); }
    OnlyStarsMatchStars(pattern[p..], value[k..]);
    assert pattern[p..] == [pattern[p]] + pattern[p + 1..];
  }

  lemma NewStarComplete(pattern: string, value: string, p: nat, v: nat, star: Option<nat>, retry: nat)
    requires p < |pattern| && retry <= v <= |value| && pattern[p] == '*'
    requires star.Some? ==> Plain(pattern, value, p, v, star.value, retry)
    requires Target(pattern, value, p, v, star, retry)
    ensures Matches(pattern[p..], value[v..])
  {
    if star.Some? {
      var k := ThroughPlain(pattern, value, p, v, star.value, retry);
      assert value[v..][k - v..] == value[k..];
      StarTakes(pattern[p..], value[v..], k - v);
    }
  }

  /** Past a mismatch no match starts at the retry point. */
  lemma RetryComplete(pattern: string, value: string, p: nat, v: nat, s: nat, retry: nat)
    requires v < |value| && Plain(pattern, value, p, v, s, retry) && Matches(pattern[s..], value[retry..])
    requires p < |pattern| ==> pattern[p] != value[v] && pattern[p] != '*'
    ensures Matches(pattern[s..], value[retry + 1..])
  {
    assert value[retry..][1..] == value[retry + 1..] && pattern[s..][1..] == pattern[s + 1..];
    if Matches(pattern[s + 1..], value[retry..]) {
      var l := pattern[s + 1..p];
      assert pattern[s + 1..] == l + pattern[p..] && value[retry..][|l|..] == value[v..];
      Literal(l, pattern[p..], value[retry..]);
    }
  }

  lemma {:induction false} LoopComplete(pattern: string, value: string, p: nat, v: nat, star: Option<nat>, retry: nat)
    requires StarOnlyLast(value) && p <= |pattern| && retry <= v <= |value|
    requires star.Some? ==> Plain(pattern, value, p, v, star.value, retry)
    requires Target(pattern, value, p, v, star, retry)
    ensures Loop(pattern, value, p, v, star, retry)
    decreases |value| - retry, |pattern| - p
  {
    if v == |value| {
      EndComplete(pattern, value, p, star, retry);
    } else if p < |pattern| && pattern[p] == value[v] {
      if value[v] == '*' {
        LastStarComplete(pattern, value, p, star, retry);
      } else {
        if star.Some? { PlainGrows(pattern, value, p, v, star.value, retry); }
        LoopComplete(pattern, value, p + 1, v + 1, star, retry);
      }
    } else if p < |pattern| && pattern[p] == '*' {
      NewStarComplete(pattern, value, p, v, star, retry);
      LoopComplete(pattern, value, p + 1, v, Some(p), v);
    } else if star.Some? {
      RetryComplete(pattern, value, p, v, star.value, retry);
      LoopComplete(pattern, value, star.value + 1, retry + 1, star, retry + 1);
    }
  }

  lemma GlobIsExact(pattern: string, value: string)
    requires StarOnlyLast(value)
    ensures Globs(pattern, value) <==> Matches(pattern, value)
  {
    assert pattern[0..] == pattern && value[0..] == value;
    if Globs(pattern, value) { GlobIsSound(pattern, value); }
    if Matches(pattern, value) { LoopComplete(pattern, value, 0, 0, None, 0); }
  }

  // ---- and when it is not --------------------------------------------------------

  lemma {:induction false} StarEatenAsText(a: string, b: string, j: nat)
    requires '*' !in a && b != [] && j <= |a|
    ensures !Loop(a + "*", a + "*" + b, j, j, None, 0)
    decreases |a| - j
  {
    if j < |a| {
      StarEatenAsText(a, b, j + 1);
    }
  }

  /** A star inside the value is taken for the pattern's star and nothing is left to match the rest. */
  lemma GlobMisses(a: string, b: string)
    requires '*' !in a && b != []
    ensures !Globs(a + "*", a + "*" + b) && Matches(a + "*", a + "*" + b)
  {
    StarEatenAsText(a, b, 0);
    var value := a + "*" + b;
    Literal(a, "*", value);
    assert value[|a|..][|b| + 1..] == [];
    StarTakes("*", value[|a|..], |b| + 1);
  }

  lemma {:induction false} FirstStar(value: string, j: nat) returns (i: nat)
    requires j < |value| && value[j] == '*'
    ensures i <= j && value[i] == '*' && '*' !in value[..i]
    decreases j
  {
    if '*' in value[..j] {
      var k :| 0 <= k < j && value[k] == '*';
      i := FirstStar(value, k);
    } else {
      i := j;
    }
  }

  /** Every value with an inner star has a pattern that means it and that the loop denies. */
  lemma MissedPattern(value: string) returns (pattern: string)
    requires !StarOnlyLast(value)
    ensures Matches(pattern, value) && !Globs(pattern, value)
  {
    var j :| 0 <= j < |value| - 1 && value[j] == '*';
    var i := FirstStar(value, j);
    GlobMisses(value[..i], value[i + 1..]);
    assert value == value[..i] + "*" + value[i + 1..];
    pattern := value[..i] + "*";
  }

  /** The loop decides a value for every pattern exactly when the value has no star but a last one. */
  lemma GlobExactIff(value: string)
    ensures (forall pattern :: Globs(pattern, value) <==> Matches(pattern, value)) <==> StarOnlyLast(value)
  {
    if StarOnlyLast(value) {
      forall pattern ensures Globs(pattern, value) <==> Matches(pattern, value) {
        GlobIsExact(pattern, value);
      }
    } else {
      var pattern := MissedPattern(value);
      assert !(Globs(pattern, value) <==> Matches(pattern, value));
    }
  }
}
