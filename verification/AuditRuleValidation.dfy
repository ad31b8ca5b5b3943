/** Validation of rules on their way into the database, which also normalises them in place
    (server/internal/service/audit_rule_validate.go). */
module AuditRuleValidation {
  import opened Wrappers
  import opened ByteStrings
  import opened Utf8
  import opened Fetching
  import opened RuleEngine
  import RuleReports

  const KEYWORD_MAX_COUNT := 50
  const KEYWORD_MAX_LEN := 128
  const PATTERN_MAX_LEN := 512
  const RECHECK_MIN := 5
  const RECHECK_MAX := 10080
  const NOTIFY_MAX_RUNES := 1024

  datatype Logic = Any | All | Unset

  datatype Draft = Draft(name: Bytes, matchType: MatchType, targets: seq<Target>, keywords: seq<Bytes>, logic: Logic,
                         pattern: Bytes, action: Action, banNotify: Bytes, exemptNotify: Bytes,
                         exempt: bool, recheckMinutes: int)

  datatype Error = BadBody | BadTargets | BadMatchType | BadCombination | BadPattern | BadKeywords | BadAction | BadNotify | BadRecheck

  /** Whether the pattern is a status code from 100 to 599, and whether it compiles: properties of its trimmed text. */
  datatype Patterns = Patterns(isCode: Bytes -> bool, compiles: Bytes -> bool)

  predicate KeywordFits(kw: Bytes) { Trim(kw) != [] && |Trim(kw)| <= KEYWORD_MAX_LEN }

  predicate NotifyFits(content: Bytes) { |Runes(Trim(content))| <= NOTIFY_MAX_RUNES }

  predicate KeywordsFit(d: Draft) {
    0 < |d.keywords| <= KEYWORD_MAX_COUNT && forall kw :: kw in d.keywords ==> KeywordFits(kw)
  }

  /** The first thing that is wrong with the fields that the match type needs. */
  function TypeError(d: Draft, p: Patterns): Option<Error> {
    match d.matchType
    case UnknownType => Some(BadMatchType)
    case Unreachable => None
    case StatusEq =>
      if d.targets != [StatusCode] then Some(BadCombination) else if !p.isCode(Trim(d.pattern)) then Some(BadPattern) else None
    case Keyword =>
      if StatusCode in d.targets then Some(BadCombination) else if !KeywordsFit(d) then Some(BadKeywords) else None
    case Regex =>
      if StatusCode in d.targets then Some(BadCombination)
      else if Trim(d.pattern) == [] || |Trim(d.pattern)| > PATTERN_MAX_LEN || !p.compiles(Trim(d.pattern)) then Some(BadPattern)
      else None
  }

  function FirstError(d: Draft, p: Patterns): Option<Error> {
    if Trim(d.name) == [] then Some(BadBody)
    else if d.matchType != Unreachable && (d.targets == [] || UnknownTarget in d.targets) then Some(BadTargets)
    else if TypeError(d, p).Some? then TypeError(d, p)
    else if d.action == UnknownAction then Some(BadAction)
    else if !NotifyFits(d.banNotify) || !NotifyFits(d.exemptNotify) then Some(BadNotify)
    else if d.exempt && !(RECHECK_MIN <= d.recheckMinutes <= RECHECK_MAX) then Some(BadRecheck)
    else None
  }

  /** A draft is accepted if and only if all of this holds. */
  lemma AcceptedIff(d: Draft, p: Patterns)
    ensures FirstError(d, p).None? <==>
      && Trim(d.name) != [] && d.action != UnknownAction && d.matchType != UnknownType
      && (d.matchType != Unreachable ==> d.targets != [] && UnknownTarget !in d.targets)
      && (d.matchType == StatusEq ==> d.targets == [StatusCode] && p.isCode(Trim(d.pattern)))
      && (d.matchType == Keyword || d.matchType == Regex ==> StatusCode !in d.targets)
      && (d.matchType == Keyword ==> 1 <= |d.keywords| <= 50 && forall kw :: kw in d.keywords ==> 1 <= |Trim(kw)| <= 128)
      && (d.matchType == Regex ==> 1 <= |Trim(d.pattern)| <= 512 && p.compiles(Trim(d.pattern)))
      && |Runes(Trim(d.banNotify))| <= 1024 && |Runes(Trim(d.exemptNotify))| <= 1024
      && (d.exempt ==> 5 <= d.recheckMinutes <= 10080)
  {
    if d.matchType == Keyword {
      forall kw ensures KeywordFits(kw) <==> 1 <= |Trim(kw)| <= 128 { }
    }
  }

  /** The form in which a rule is stored. */
  function Normal(d: Draft): Draft {
    var d1 := if d.matchType == Unreachable then d.(targets := [], keywords := [], pattern := []) else d;
    var d2 := if d.matchType == Keyword && d.logic == Unset then d1.(logic := Any) else d1;
    if d.exempt then d2 else d2.(recheckMinutes := 0)
  }

  method CheckKeywords(keywords: seq<Bytes>) returns (fit: bool)
    ensures fit <==> 0 < |keywords| <= KEYWORD_MAX_COUNT && forall kw :: kw in keywords ==> KeywordFits(kw)
  {
    if keywords == [] || |keywords| > KEYWORD_MAX_COUNT { return false; }
    for i := 0 to |keywords|
      invariant forall j :: 0 <= j < i ==> KeywordFits(keywords[j])
    {
      var kw := Trim(keywords[i]);
      if kw == [] || |kw| > KEYWORD_MAX_LEN {
        assert keywords[i] in keywords && !KeywordFits(keywords[i]);
        return false;
      }
    }
    fit := true;
  }

  class AuditRule {
    var d: Draft

    constructor (d: Draft)
      ensures this.d == d
    {
      this.d := d;
    }

    /** The switch over the match type. */
    method ValidateType(p: Patterns) returns (err: Option<Error>)
      modifies this
      ensures err == TypeError(old(d), p)
      ensures d == if err.None? && old(d).matchType == Keyword && old(d).logic == Unset then old(d).(logic := Any) else old(d)
    {
      if d.matchType == UnknownType { return Some(BadMatchType); }
      if d.matchType == Unreachable { return None; }
      var hasStatusCode := false;
      for i := 0 to |d.targets|
        invariant !hasStatusCode && StatusCode !in d.targets[..i]
        invariant d == old(d)
      {
        if d.targets[i] == StatusCode { hasStatusCode := true; break; }
      }
      assert hasStatusCode <==> StatusCode in d.targets;
      match d.matchType {
        case StatusEq =>
          if !hasStatusCode || |d.targets| != 1 { return Some(BadCombination); }
          if !p.isCode(Trim(d.pattern)) { return Some(BadPattern); }
        case Keyword =>
          if hasStatusCode { return Some(BadCombination); }
          var fit := CheckKeywords(d.keywords);
          if !fit { return Some(BadKeywords); }
          if d.logic != Any && d.logic != All { d := d.(logic := Any); }
        case Regex =>
          if hasStatusCode { return Some(BadCombination); }
          var pattern := Trim(d.pattern);
          if pattern == [] || |pattern| > PATTERN_MAX_LEN { return Some(BadPattern); }
          if !p.compiles(pattern) { return Some(BadPattern); }
        case _ =>
      }
      err := None;
    }

    /** After an error the rule may be half normalised; it is not stored then. */
    method Validate(p: Patterns) returns (err: Option<Error>)
      modifies this
      ensures err == FirstError(old(d), p)
      ensures err.None? ==> d == Normal(old(d))
    {
      if Trim(d.name) == [] { return Some(BadBody); }
      if d.matchType == Unreachable {
        d := d.(targets := [], keywords := [], pattern := []);
      } else {
        if d.targets == [] { return Some(BadTargets); }
        for i := 0 to |d.targets|
          invariant d == old(d) && UnknownTarget !in d.targets[..i]
        {
          if d.targets[i] == UnknownTarget { return Some(BadTargets); }
        }
      }
      err := ValidateType(p);
      if err.Some? { return; }
      if d.action == UnknownAction { return Some(BadAction); }
      if !NotifyFits(d.banNotify) { return Some(BadNotify); }
      if !NotifyFits(d.exemptNotify) { return Some(BadNotify); }
      if !d.exempt {
        d := d.(recheckMinutes := 0);
        return None;
      }
      if d.recheckMinutes < RECHECK_MIN || d.recheckMinutes > RECHECK_MAX { return Some(BadRecheck); }
      err := None;
    }
  }

  /** What is stored has no leftovers: nothing to match for a rule on unreachable sites, a keyword logic for a keyword
      rule, and a grace period only where one is asked for. */
  lemma NormalMeans(d: Draft)
    ensures var n := Normal(d);
      && (d.matchType == Unreachable ==> n.targets == [] && n.keywords == [] && n.pattern == [])
      && n.logic == (if d.matchType == Keyword && d.logic == Unset then Any else d.logic)
      && n.recheckMinutes == (if d.exempt then d.recheckMinutes else 0)
  {
  }

  lemma NormalKeepsTheRest(d: Draft)
    ensures var n := Normal(d);
      && n.name == d.name && n.matchType == d.matchType && n.action == d.action
      && n.banNotify == d.banNotify && n.exemptNotify == d.exemptNotify && n.exempt == d.exempt
      && (d.exempt ==> n.recheckMinutes == d.recheckMinutes)
      && (d.matchType != Unreachable ==> n.targets == d.targets && n.keywords == d.keywords && n.pattern == d.pattern)
  {
  }

  lemma TypeErrorOfNormal(d: Draft, p: Patterns)
    requires TypeError(d, p).None?
    ensures TypeError(Normal(d), p).None?
  {
    NormalKeepsTheRest(d);
    if d.matchType == Keyword { assert KeywordsFit(Normal(d)); }
  }

  /** Validating a stored rule again accepts it and changes nothing. */
  lemma ValidationIsStable(d: Draft, p: Patterns)
    requires FirstError(d, p).None?
    ensures FirstError(Normal(d), p).None? && Normal(Normal(d)) == Normal(d)
  {
    NormalKeepsTheRest(d);
    TypeErrorOfNormal(d, p);
  }

  lemma {:induction false} TrimmedFrom(keywords: seq<Bytes>)
    ensures forall kw :: kw in Trimmed(keywords) ==> exists i :: 0 <= i < |keywords| && kw == Trim(keywords[i])
  {
    if keywords != [] {
      var init, last := keywords[..|keywords| - 1], keywords[|keywords| - 1];
      TrimmedFrom(init);
      forall kw | kw in Trimmed(keywords) ensures exists i :: 0 <= i < |keywords| && kw == Trim(keywords[i]) {
        if kw in Trimmed(init) {
          var i :| 0 <= i < |init| && kw == Trim(init[i]);
          assert keywords[i] == init[i];
        } else {
          assert kw == Trim(last) && keywords[|keywords| - 1] == last;
        }
      }
    }
  }

  lemma ValidatedIsInLimits(d: Draft, p: Patterns, r: Rule)
    requires FirstError(d, p).None? && d.matchType == Keyword && r.keywords == d.keywords
    ensures RuleReports.KeywordsInLimits(r) && r.keywords != [] && Trim(r.keywords[0]) != []
  {
    TrimmedFrom(r.keywords);
    assert KeywordsFit(d) && d.keywords[0] in d.keywords;
    forall kw | kw in Trimmed(r.keywords) ensures |kw| <= KEYWORD_MAX_LEN {
      var i :| 0 <= i < |r.keywords| && kw == Trim(r.keywords[i]);
      assert KeywordFits(r.keywords[i]);
    }
  }

  /** Of a validated keyword rule whatever is stored of a hit shows a whole keyword. */
  lemma ValidatedRuleShowsKeyword(d: Draft, p: Patterns, lib: Library, r: Rule, f: Fetch, scheme: Bytes) returns (kw: Bytes)
    requires FirstError(d, p).None? && d.matchType == Keyword
    requires r.keywords == Normal(d).keywords && r.all == (Normal(d).logic == All)
    requires RuleReports.RuneWise(lib.lower) && MatchKeywords(lib, r, f).Found? && Valid(scheme) && |scheme| <= 5
    ensures kw in Trimmed(r.keywords) && (r.all ==> r.keywords != [] && kw == Trim(r.keywords[0]))
    ensures RuleReports.Shows(Prefixed(scheme, MatchKeywords(lib, r, f).snippet), kw, FoldOf(lib, r))
  {
    ValidatedIsInLimits(d, p, r);
    FirstTrimmed(r.keywords);
    kw := RuleReports.StoredSnippetShowsKeyword(lib, r, f, scheme);
  }

  lemma {:induction false} FirstTrimmed(keywords: seq<Bytes>)
    requires keywords != [] && Trim(keywords[0]) != []
    ensures Trimmed(keywords) != [] && Trimmed(keywords)[0] == Trim(keywords[0])
  {
    if |keywords| > 1 { FirstTrimmed(keywords[..|keywords| - 1]); }
  }
}
