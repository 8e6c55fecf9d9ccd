/** The phone's tier policy, crates/conveyance-protocol/src/policy.rs. */
module Policy {
  import opened Wrappers
  import opened Message
  import opened Glob

  const DESTINATION_HISTORY_LIMIT := 30

  datatype HighRiskRule = HighRiskRule(
    service: Option<string>, verb: Option<string>, endpoint: Option<string>, requiredTier: nat)

  datatype ApprovedDestination = ApprovedDestination(service: string, endpoint: string)

  datatype Tier3Reason = DeleteMethod | NovelDestination | ConfiguredRule

  function UpperAscii(c: char): char {
    if 'a' <= c <= 'z' then (c as int - 32) as char else c
  }

  predicate EqIgnoreAsciiCase(a: string, b: string) {
    |a| == |b| && forall i :: 0 <= i < |a| ==> UpperAscii(a[i]) == UpperAscii(b[i])
  }

  /** The six letters in either case, and nothing else. */
  lemma DeleteInAnyCase(v: string)
    ensures EqIgnoreAsciiCase(v, "DELETE") <==>
      && |v| == 6 && (v[0] == 'd' || v[0] == 'D') && (v[1] == 'e' || v[1] == 'E') && (v[2] == 'l' || v[2] == 'L')
      && (v[3] == 'e' || v[3] == 'E') && (v[4] == 't' || v[4] == 'T') && (v[5] == 'e' || v[5] == 'E')
  {
    if |v| == 6 {
      assert "DELETE"[0] == 'D' && "DELETE"[1] == 'E' && "DELETE"[2] == 'L' && "DELETE"[3] == 'E';
      forall i | 0 <= i < 6 ensures UpperAscii(v[i]) == UpperAscii("DELETE"[i]) <==>
        v[i] == "DELETE"[i] || v[i] as int == "DELETE"[i] as int + 32 {
      }
    }
  }

  predicate Pass(pattern: Option<string>, value: string) {
    pattern.Some? ==> Globs(pattern.value, value)
  }

  predicate RuleMatches(rule: HighRiskRule, f: Fields) {
    Pass(rule.service, f.service) && Pass(rule.verb, f.verb) && Pass(rule.endpoint, f.endpoint)
  }

  /** What the rule's author meant. */
  predicate RuleMeans(rule: HighRiskRule, f: Fields) {
    && (rule.service.Some? ==> Matches(rule.service.value, f.service))
    && (rule.verb.Some? ==> Matches(rule.verb.value, f.verb))
    && (rule.endpoint.Some? ==> Matches(rule.endpoint.value, f.endpoint))
  }

  /** A rule fires only on what it means, and on all of it for requests without inner stars. */
  lemma RuleFiresAsMeant(rule: HighRiskRule, f: Fields)
    ensures RuleMatches(rule, f) ==> RuleMeans(rule, f)
    ensures Plain(f) ==> (RuleMatches(rule, f) <==> RuleMeans(rule, f))
  {
    PassAsMeant(rule.service, f.service);
    PassAsMeant(rule.verb, f.verb);
    PassAsMeant(rule.endpoint, f.endpoint);
  }

  lemma PassAsMeant(pattern: Option<string>, value: string)
    ensures Pass(pattern, value) && pattern.Some? ==> Matches(pattern.value, value)
    ensures StarOnlyLast(value) && pattern.Some? && Matches(pattern.value, value) ==> Pass(pattern, value)
  {
    if pattern.Some? {
      if Globs(pattern.value, value) { GlobIsSound(pattern.value, value); }
      if StarOnlyLast(value) { GlobIsExact(pattern.value, value); }
    }
  }

  method MatchesRule(rule: HighRiskRule, f: Fields) returns (r: bool)
    ensures r == RuleMatches(rule, f)
  {
    r := true;
    if rule.service.Some? { r := GlobMatches(rule.service.value, f.service); }
    if r && rule.verb.Some? { r := GlobMatches(rule.verb.value, f.verb); }
    if r && rule.endpoint.Some? { r := GlobMatches(rule.endpoint.value, f.endpoint); }
  }

  /** One of the newest destinations. */
  predicate Seen(recent: seq<ApprovedDestination>, f: Fields) {
    exists i :: 0 <= i < |recent| && i < DESTINATION_HISTORY_LIMIT
                && recent[i].service == f.service && recent[i].endpoint == f.endpoint
  }

  predicate RuleRaises(rules: seq<HighRiskRule>, f: Fields) {
    exists i :: 0 <= i < |rules| && RuleMatches(rules[i], f) && rules[i].requiredTier == 3
  }

  method WasSeen(recent: seq<ApprovedDestination>, f: Fields) returns (seen: bool)
    ensures seen == Seen(recent, f)
  {
    var i := 0;
    while i < |recent| && i < DESTINATION_HISTORY_LIMIT
      invariant i <= |recent| && i <= DESTINATION_HISTORY_LIMIT
      invariant forall j :: 0 <= j < i ==> !(recent[j].service == f.service && recent[j].endpoint == f.endpoint)
    {
      if recent[i].service == f.service && recent[i].endpoint == f.endpoint { return true; }
      i := i + 1;
    }
    return false;
  }

  method AnyRuleRaises(rules: seq<HighRiskRule>, f: Fields) returns (raises: bool)
    ensures raises == RuleRaises(rules, f)
  {
    for i := 0 to |rules|
      invariant forall j :: 0 <= j < i ==> !(RuleMatches(rules[j], f) && rules[j].requiredTier == 3)
    {
      var m := MatchesRule(rules[i], f);
      if m && rules[i].requiredTier == 3 { return true; }
    }
    return false;
  }

  /** No inner star in what rules are matched against. */
  predicate Plain(f: Fields) {
    StarOnlyLast(f.service) && StarOnlyLast(f.verb) && StarOnlyLast(f.endpoint)
  }

  /** All rules fire exactly as meant on a request if and only if its three fields have no inner star. */
  lemma RulesFireAsMeantIff(f: Fields)
    ensures (forall rule :: RuleMatches(rule, f) <==> RuleMeans(rule, f)) <==> Plain(f)
  {
    if Plain(f) {
      forall rule ensures RuleMatches(rule, f) <==> RuleMeans(rule, f) { RuleFiresAsMeant(rule, f); }
    } else {
      var rule := MissedRule(f);
      assert !(RuleMatches(rule, f) <==> RuleMeans(rule, f));
    }
  }

  /** For every other request there is a tier-3 rule that means it and does not fire. */
  lemma MissedRule(f: Fields) returns (rule: HighRiskRule)
    requires !Plain(f)
    ensures rule.requiredTier == 3 && RuleMeans(rule, f) && !RuleMatches(rule, f)
  {
    if !StarOnlyLast(f.service) {
      var pattern := MissedPattern(f.service);
      rule := HighRiskRule(Some(pattern), None, None, 3);
    } else if !StarOnlyLast(f.verb) {
      var pattern := MissedPattern(f.verb);
      rule := HighRiskRule(None, Some(pattern), None, 3);
    } else {
      var pattern := MissedPattern(f.endpoint);
      rule := HighRiskRule(None, None, Some(pattern), 3);
    }
  }

  function Reasons(rules: seq<HighRiskRule>, f: Fields, recent: seq<ApprovedDestination>): seq<Tier3Reason> {
    (if EqIgnoreAsciiCase(f.verb, "DELETE") then [DeleteMethod] else [])
    + (if Seen(recent, f) then [] else [NovelDestination])
    + (if RuleRaises(rules, f) then [ConfiguredRule] else [])
  }

  function Tier(reasons: seq<Tier3Reason>): nat {
    if reasons == [] then 2 else 3
  }

  /** Every request with an inner star, otherwise of tier 2, stays there under a rule that means to raise it. */
  lemma RuleCanFailToRaise(f: Fields, recent: seq<ApprovedDestination>) returns (rule: HighRiskRule)
    requires !Plain(f) && !EqIgnoreAsciiCase(f.verb, "DELETE") && Seen(recent, f)
    ensures rule.requiredTier == 3 && RuleMeans(rule, f) && Tier(Reasons([rule], f, recent)) == 2
  {
    rule := MissedRule(f);
  }

  /** Tier 3 exactly for one of the three reasons, each reported once and in order; tier 2 otherwise. */
  method Evaluate(rules: seq<HighRiskRule>, request: ApprovalRequest, recent: seq<ApprovedDestination>)
    returns (tier: nat, reasons: seq<Tier3Reason>)
    ensures reasons == Reasons(rules, request.fields, recent) && tier == Tier(reasons)
    ensures tier == 3 || tier == 2
    ensures tier == 3 <==>
      || EqIgnoreAsciiCase(request.fields.verb, "DELETE") || !Seen(recent, request.fields)
      || RuleRaises(rules, request.fields)
    ensures DeleteMethod in reasons <==> EqIgnoreAsciiCase(request.fields.verb, "DELETE")
    ensures NovelDestination in reasons <==> !Seen(recent, request.fields)
    ensures ConfiguredRule in reasons <==> RuleRaises(rules, request.fields)
  {
    reasons := [];
    if EqIgnoreAsciiCase(request.fields.verb, "DELETE") { reasons := reasons + [DeleteMethod]; }
    var seen := WasSeen(recent, request.fields);
    if !seen { reasons := reasons + [NovelDestination]; }
    var raises := AnyRuleRaises(rules, request.fields);
    if raises { reasons := reasons + [ConfiguredRule]; }
    tier := if reasons == [] then 2 else 3;
  }
}
