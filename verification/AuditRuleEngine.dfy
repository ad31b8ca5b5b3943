/** The loops of server/internal/service/audit_rule_engine.go. */
module AuditRuleEngines {
  import opened Wrappers
  import opened ByteStrings
  import opened Snippets
  import opened Fetching
  import opened RuleEngine

  method MatchKeywordAny(lib: Library, r: Rule, f: Fetch, keywords: seq<Bytes>) returns (hit: Search)
    ensures hit == KeywordAny(r.targets, f, keywords, FoldOf(lib, r))
  {
    var fold := FoldOf(lib, r);
    for i := 0 to |r.targets|
      invariant KeywordAny(r.targets[i..], f, keywords, fold) == KeywordAny(r.targets, f, keywords, fold)
    {
      assert r.targets[i..][1..] == r.targets[i + 1..];
      var target := GetTarget(r.targets[i], f);
      if target == [] { continue; }
      target := Cut(target);
      for j := 0 to |keywords|
        invariant FirstKeyword(target, keywords[j..], fold) == FirstKeyword(target, keywords, fold)
      {
        assert keywords[j..][1..] == keywords[j + 1..];
        var idx := FindKeyword(target, keywords[j], fold);
        if idx >= 0 { return Slice(target, idx, |fold(keywords[j])|); }
      }
    }
    hit := Missed;
  }

  method MatchKeywordAll(lib: Library, r: Rule, f: Fetch, keywords: seq<Bytes>) returns (hit: Search)
    ensures hit == if Texts(r.targets, f) == [] then Missed
                   else KeywordAll(Texts(r.targets, f), keywords, FoldOf(lib, r), [])
  {
    var fold := FoldOf(lib, r);
    var texts: seq<Bytes> := [];
    for i := 0 to |r.targets|
      invariant texts == Texts(r.targets[..i], f)
    {
      assert r.targets[..i + 1][..i] == r.targets[..i];
      var raw := GetTarget(r.targets[i], f);
      if raw == [] { continue; }
      texts := texts + [Cut(raw)];
    }
    assert r.targets[..|r.targets|] == r.targets;
    if texts == [] { return Missed; }

    var first: Bytes := [];
    for i := 0 to |keywords|
      invariant KeywordAll(texts, keywords[i..], fold, first) == KeywordAll(texts, keywords, fold, [])
    {
      ghost var rest := keywords[i..];
      assert rest[0] == keywords[i] && rest[1..] == keywords[i + 1..];
      var found := false;
      ghost var before := first;
      for j := 0 to |texts|
        invariant !found && first == before
        invariant FindIn(texts[j..], keywords[i], fold) == FindIn(texts, keywords[i], fold)
      {
        assert texts[j..][1..] == texts[j + 1..];
        var idx := FindKeyword(texts[j], keywords[i], fold);
        if idx >= 0 {
          found := true;
          if first == [] {
            var slice := Slice(texts[j], idx, |fold(keywords[i])|);
            if slice == OutOfRange { return OutOfRange; }
            first := slice.snippet;
          }
          break;
        }
      }
      if !found { return Missed; }
    }
    hit := Found(first);
  }

  method MatchKeywordMultiTarget(lib: Library, r: Rule, f: Fetch) returns (hit: Search)
    ensures hit == MatchKeywords(lib, r, f)
  {
    var keywords: seq<Bytes> := [];
    for i := 0 to |r.keywords|
      invariant keywords == Trimmed(r.keywords[..i])
    {
      assert r.keywords[..i + 1][..i] == r.keywords[..i];
      var kw := Trim(r.keywords[i]);
      if kw != [] { keywords := keywords + [kw]; }
    }
    assert r.keywords[..|r.keywords|] == r.keywords;
    if keywords == [] { return Missed; }
    if r.all { hit := MatchKeywordAll(lib, r, f, keywords); } else { hit := MatchKeywordAny(lib, r, f, keywords); }
  }

  method MatchRegexMultiTarget(lib: Library, r: Rule, f: Fetch) returns (hit: Search)
    ensures hit == MatchRegex(lib, r, f, r.targets)
  {
    for i := 0 to |r.targets|
      invariant MatchRegex(lib, r, f, r.targets[i..]) == MatchRegex(lib, r, f, r.targets)
    {
      assert r.targets[i..][1..] == r.targets[i + 1..];
      var target := GetTarget(r.targets[i], f);
      if target == [] { continue; }
      target := Cut(target);
      var loc := lib.find(r, target);
      if loc.Some? && loc.value.start + loc.value.len <= |target| {
        return Found(SnippetOf(target, loc.value.start, loc.value.len));
      }
    }
    hit := Missed;
  }

  method MatchOneRule(lib: Library, r: Rule, f: Fetch) returns (hit: Search)
    ensures hit == MatchRule(lib, r, f)
  {
    match r.matchType {
      case Keyword => hit := MatchKeywordMultiTarget(lib, r, f);
      case Regex =>
        if f.truncated { return Missed; }
        hit := MatchRegexMultiTarget(lib, r, f);
      case StatusEq =>
        if f.status != FetchClean || r.code != Some(f.statusCode) || f.statusCode < 0 { return Missed; }
        hit := Found(Digits(f.statusCode));
      case _ => hit := Missed;
    }
  }

  method RuleInScope(r: Rule, domain: nat) returns (ok: bool)
    ensures ok == InScope(r, domain)
  {
    if r.scope == [] { return true; }
    for i := 0 to |r.scope|
      invariant domain !in r.scope[..i]
    {
      if r.scope[i] == domain { return true; }
    }
    ok := false;
  }

  /** One round of the loop over the rules, for a rule that applies; None is a panic. */
  method MatchOnProbe(lib: Library, r: Rule, domain: nat, probe: Probe) returns (result: Option<seq<Match>>)
    requires Applies(r, domain)
    ensures result == if Panics(lib, r, domain, probe) then None else Some(OnProbe(lib, r, domain, probe))
  {
    var matches: seq<Match> := [];
    if r.matchType == Unreachable {
      if ConfirmedUnreachable(probe) {
        var last := probe.first;
        if probe.second.Some? { last := probe.second.value; }
        matches := [Match(r, TruncateRunes(last.summary, 200))];
      }
      return Some(matches);
    }
    var channels := [probe.primary.https, probe.primary.http];
    for j := 0 to 2
      invariant matches == (if j > 0 then OnChannel(lib, r, channels[0]) else [])
                           + (if j > 1 then OnChannel(lib, r, channels[1]) else [])
      invariant forall k :: 0 <= k < j ==> !ChannelPanics(lib, r, channels[k])
    {
      var ch := channels[j];
      if ch.scheme == [] { continue; }
      var hit := MatchOneRule(lib, r, ch.fetch);
      if hit == OutOfRange { return None; }
      if hit == Missed { continue; }
      matches := matches + [Match(r, Prefixed(ch.scheme, hit.snippet))];
    }
    return Some(matches);
  }

  lemma OneRuleMore(lib: Library, rules: seq<Rule>, i: nat, domain: nat, probe: Probe)
    requires i < |rules| && !probe.skipRuleMatch
    ensures Matches(lib, rules[..i + 1], domain, probe)
         == Matches(lib, rules[..i], domain, probe) + OnProbe(lib, rules[i], domain, probe)
    ensures AnyPanics(lib, rules[..i + 1], domain, probe) <==>
              (AnyPanics(lib, rules[..i], domain, probe) || Panics(lib, rules[i], domain, probe))
  {
    assert rules[..i + 1][..i] == rules[..i];
    assert rules[..i + 1] == rules[..i] + [rules[i]];
    assert forall r :: r in rules[..i + 1] <==> r in rules[..i] || r == rules[i];
  }

  lemma IdleRule(lib: Library, r: Rule, domain: nat, probe: Probe)
    requires !Applies(r, domain)
    ensures OnProbe(lib, r, domain, probe) == [] && !Panics(lib, r, domain, probe)
  {
  }

  lemma PanicSpreads(lib: Library, rules: seq<Rule>, i: nat, domain: nat, probe: Probe)
    requires i < |rules| && !probe.skipRuleMatch && Panics(lib, rules[i], domain, probe)
    ensures AnyPanics(lib, rules, domain, probe)
  {
    assert rules[i] in rules;
  }

  method MatchAllProbeWithRules(lib: Library, domain: nat, probe: Probe, rules: seq<Rule>)
    returns (result: Option<seq<Match>>)
    ensures result == if AnyPanics(lib, rules, domain, probe) then None else Some(Matches(lib, rules, domain, probe))
  {
    var matches: seq<Match> := [];
    if probe.skipRuleMatch { return Some([]); }
    for i := 0 to |rules|
      invariant matches == Matches(lib, rules[..i], domain, probe)
      invariant !AnyPanics(lib, rules[..i], domain, probe)
    {
      OneRuleMore(lib, rules, i, domain, probe);
      var r := rules[i];
      if !Applies(r, domain) { IdleRule(lib, r, domain, probe); }
      if !r.enabled && r.id != 0 { continue; }
      var inScope := RuleInScope(r, domain);
      if !inScope { continue; }
      var found := MatchOnProbe(lib, r, domain, probe);
      if found.None? {
        PanicSpreads(lib, rules, i, domain, probe);
        return None;
      }
      matches := matches + found.value;
    }
    assert rules[..|rules|] == rules;
    return Some(matches);
  }

  // ---------- the match that is acted on ----------

  function Rank(a: Action): int {
    match a case User => 4 case Site => 3 case DeleteDNS => 2 case Observe => 1 case UnknownAction => 0
  }

  /** A stronger action wins, then the older rule. */
  predicate Better(a: Match, b: Match) {
    if Rank(a.rule.action) != Rank(b.rule.action) then Rank(a.rule.action) > Rank(b.rule.action)
    else a.rule.createdAt < b.rule.createdAt
  }

  /** No match is better, and none of the earlier ones is as good. */
  predicate Primary(matches: seq<Match>, k: nat) {
    && k < |matches|
    && (forall j :: 0 <= j < |matches| ==> !Better(matches[j], matches[k]))
    && (forall j :: 0 <= j < k ==> Better(matches[k], matches[j]))
  }

  method PickPrimaryMatch(matches: seq<Match>) returns (best: Option<nat>)
    ensures best.None? <==> matches == []
    ensures best.Some? ==> Primary(matches, best.value)
  {
    if matches == [] { return None; }
    var b := 0;
    for i := 1 to |matches|
      invariant b < i
      invariant Primary(matches[..i], b)
    {
      if Better(matches[i], matches[b]) { b := i; }
    }
    assert matches[..|matches|] == matches;
    best := Some(b);
  }

  /** There is one primary match, so which matches there are, in which order, settles what is done. */
  lemma PrimaryIsUnique(matches: seq<Match>, k: nat, l: nat)
    requires Primary(matches, k) && Primary(matches, l)
    ensures k == l
  {
    var a, b := matches[k], matches[l];
    assert !Better(a, b) && !Better(b, a);
  }

  /** The order of actions: a ban of the user, the site, deleting DNS records, observing, anything else. A match with an
      action earlier in this list is better whatever the ages, and one with the same action if its rule is older. */
  lemma BetterIff(a: Match, b: Match)
    ensures var order := [User, Site, DeleteDNS, Observe, UnknownAction];
      Better(a, b) <==> || (exists i, j :: 0 <= i < j < 5 && order[i] == a.rule.action && order[j] == b.rule.action)
                        || (a.rule.action == b.rule.action && a.rule.createdAt < b.rule.createdAt)
  {
    var order := [User, Site, DeleteDNS, Observe, UnknownAction];
    forall k | 0 <= k < 5 ensures Rank(order[k]) == 4 - k { }
    var i, j := 4 - Rank(a.rule.action), 4 - Rank(b.rule.action);
    assert order[i] == a.rule.action && order[j] == b.rule.action;
  }

  /** No match calls for a stronger action than the primary one, and of those that call for the same action none
      belongs to an older rule. */
  lemma PrimaryIsStrongest(matches: seq<Match>, k: nat, j: nat)
    requires Primary(matches, k) && j < |matches|
    ensures var a, b := matches[k].rule, matches[j].rule;
      Rank(a.action) > Rank(b.action) || (Rank(a.action) == Rank(b.action) && a.createdAt <= b.createdAt)
  {
    assert !Better(matches[j], matches[k]);
  }
}
