/** Content rules (server/internal/service/audit_rule_engine.go): which rules hit a page, what is reported of a hit, and
    which hit is acted on. */
module RuleEngine {
  import opened Wrappers
  import opened ByteStrings
  import opened Fetching
  import opened Utf8
  import opened Snippets

  const TARGET_MAX := 10 * 1024 * 1024

  datatype MatchType = Keyword | Regex | StatusEq | Unreachable | UnknownType

  datatype Target = Body | Title | FinalURL | StatusCode | UnknownTarget

  datatype Action = User | Site | DeleteDNS | Observe | UnknownAction

  /** `code` is the number that the pattern says, if it says one; `all` is whether every keyword has to occur. */
  datatype Rule = Rule(id: nat, enabled: bool, matchType: MatchType, targets: seq<Target>, keywords: seq<Bytes>, all: bool,
                       pattern: Bytes, code: Option<int>, caseSensitive: bool, action: Action, scope: seq<nat>, createdAt: int)

  datatype Match = Match(rule: Rule, snippet: Bytes)

  datatype Loc = Loc(start: nat, len: nat)

  /** What comes of matching a rule: no match, a match with its snippet, or a slice out of range, which in Go panics. */
  datatype Search = Missed | Found(snippet: Bytes) | OutOfRange

  /** The leftmost match of a compiled pattern in a text, or none; None as well for a pattern that does not compile. */
  type Matcher = (Rule, Bytes) -> Option<Loc>

  type Folding = Bytes -> Bytes

  /** strings.ToLower and compiled patterns. */
  datatype Library = Library(lower: Folding, find: Matcher)

  function FoldOf(lib: Library, r: Rule): Folding { if r.caseSensitive then ((s: Bytes) => s) else lib.lower }

  // ---------- texts and keywords ----------

  predicate Space(u: Bytes) {
    || (|u| == 1 && (0x09 <= u[0] <= 0x0D || u[0] == 0x20))
    || u == [0xC2, 0x85] || u == [0xC2, 0xA0] || u == [0xE1, 0x9A, 0x80]
    || (|u| == 3 && u[..2] == [0xE2, 0x80] && (u[2] <= 0x8A || u[2] == 0xA8 || u[2] == 0xA9 || u[2] == 0xAF))
    || u == [0xE2, 0x81, 0x9F] || u == [0xE3, 0x80, 0x80]
  }

  function TrimLeft(us: seq<Bytes>): seq<Bytes> {
    if us != [] && Space(us[0]) then TrimLeft(us[1..]) else us
  }

  function TrimRight(us: seq<Bytes>): seq<Bytes> {
    if us != [] && Space(us[|us| - 1]) then TrimRight(us[..|us| - 1]) else us
  }

  /** strings.TrimSpace, on valid text. */
  function Trim(s: Bytes): Bytes { Encode(TrimRight(TrimLeft(Runes(s)))) }

  function Trimmed(keywords: seq<Bytes>): seq<Bytes> {
    if keywords == [] then []
    else
      var kw := Trim(keywords[|keywords| - 1]);
      Trimmed(keywords[..|keywords| - 1]) + (if kw != [] then [kw] else [])
  }

  function GetTarget(t: Target, f: Fetch): Bytes {
    match t case Body => f.body case Title => f.title case FinalURL => f.finalURL case _ => []
  }

  function Cut(text: Bytes): Bytes { if |text| > TARGET_MAX then text[..TARGET_MAX] else text }

  function IndexFrom(s: Bytes, k: Bytes, i: nat): (r: int)
    requires i <= |s|
    ensures r >= 0 ==> i <= r && OccursAt(s, k, r) && forall j :: i <= j < r ==> !OccursAt(s, k, j)
    ensures r < 0 ==> r == -1 && forall j :: i <= j <= |s| ==> !OccursAt(s, k, j)
    decreases |s| - i
  {
    if OccursAt(s, k, i) then i else if i == |s| then -1 else IndexFrom(s, k, i + 1)
  }

  /** strings.Index. */
  function Index(s: Bytes, k: Bytes): (r: int)
    ensures r >= 0 <==> Occurs(s, k)
    ensures r >= 0 ==> OccursAt(s, k, r)
  {
    IndexFrom(s, k, 0)
  }

  predicate KeywordOccurs(text: Bytes, kw: Bytes, fold: Folding) {
    Occurs(fold(text), fold(kw))
  }

  /** Where the keyword occurs in the text, both folded. */
  function FindKeyword(text: Bytes, kw: Bytes, fold: Folding): (at: int)
    ensures at >= 0 <==> KeywordOccurs(text, kw, fold)
    ensures at >= 0 ==> OccursAt(fold(text), fold(kw), at)
  {
    Index(fold(text), fold(kw))
  }

  function SnippetOf(text: Bytes, at: int, len: nat): Bytes
    requires at + len <= |text|
  {
    SnippetAroundByteIndex(text, at, len, 50, 100)
  }

  /** The snippet of the text around a place that was found in the folded text. A place behind the end of the text gives
      an empty snippet, one that reaches over the end a panic. */
  function Slice(text: Bytes, at: nat, len: nat): Search {
    if at >= |text| then Found([]) else if at + len > |text| then OutOfRange else Found(SnippetOf(text, at, len))
  }

  /** The snippet of a keyword that occurs in the text. */
  function Report(text: Bytes, kw: Bytes, fold: Folding): (s: Search)
    requires KeywordOccurs(text, kw, fold)
    ensures s != Missed
  {
    Slice(text, FindKeyword(text, kw, fold), |fold(kw)|)
  }

  /** A snippet shows the match between the fifty runes before it and the hundred after it, or as many as there are. */
  lemma SnippetIsContext(text: Bytes, at: nat, found: Bytes) returns (left: seq<Bytes>, right: seq<Bytes>)
    requires OccursAt(text, found, at) && Valid(found) && found != []
    ensures SnippetOf(text, at, |found|) == Encode(left) + found + Encode(right)
    ensures var all := Runes(text[..at]);
            |left| == (if |all| < 50 then |all| else 50) && left == all[|all| - |left|..]
    ensures var all := Runes(text[at + |found|..]);
            |right| == (if |all| < 100 then |all| else 100) && right == all[..|right|]
  {
    left, right := SnippetHoldsMatch(text, at, found, 50, 100);
  }

  // ---------- one rule on one channel ----------

  /** The first of the keywords that occurs in the text. */
  function FirstKeyword(text: Bytes, keywords: seq<Bytes>, fold: Folding): Search {
    if keywords == [] then Missed
    else if KeywordOccurs(text, keywords[0], fold) then Report(text, keywords[0], fold)
    else FirstKeyword(text, keywords[1..], fold)
  }

  function KeywordAny(targets: seq<Target>, f: Fetch, keywords: seq<Bytes>, fold: Folding): Search {
    if targets == [] then Missed
    else
      var text := GetTarget(targets[0], f);
      var hit := if text == [] then Missed else FirstKeyword(Cut(text), keywords, fold);
      if hit != Missed then hit else KeywordAny(targets[1..], f, keywords, fold)
  }

  function Texts(targets: seq<Target>, f: Fetch): seq<Bytes> {
    if targets == [] then []
    else
      var text := GetTarget(targets[|targets| - 1], f);
      Texts(targets[..|targets| - 1], f) + (if text == [] then [] else [Cut(text)])
  }

  /** The first of the texts in which the keyword occurs. */
  function FindIn(texts: seq<Bytes>, kw: Bytes, fold: Folding): Search {
    if texts == [] then Missed
    else if KeywordOccurs(texts[0], kw, fold) then Report(texts[0], kw, fold)
    else FindIn(texts[1..], kw, fold)
  }

  /** `first` is the snippet so far; while it is empty, the snippet of the next keyword is taken. */
  function KeywordAll(texts: seq<Bytes>, keywords: seq<Bytes>, fold: Folding, first: Bytes): Search {
    if keywords == [] then Found(first)
    else
      var found := FindIn(texts, keywords[0], fold);
      if found == Missed then Missed
      else if first != [] then KeywordAll(texts, keywords[1..], fold, first)
      else if found == OutOfRange then OutOfRange
      else KeywordAll(texts, keywords[1..], fold, found.snippet)
  }

  function MatchKeywords(lib: Library, r: Rule, f: Fetch): Search {
    var keywords := Trimmed(r.keywords);
    if keywords == [] then Missed
    else if !r.all then KeywordAny(r.targets, f, keywords, FoldOf(lib, r))
    else if Texts(r.targets, f) == [] then Missed
    else KeywordAll(Texts(r.targets, f), keywords, FoldOf(lib, r), [])
  }

  function MatchRegex(lib: Library, r: Rule, f: Fetch, targets: seq<Target>): Search {
    if targets == [] then Missed
    else
      var text := Cut(GetTarget(targets[0], f));
      var loc := if text == [] then None else lib.find(r, text);
      if loc.Some? && loc.value.start + loc.value.len <= |text| then Found(SnippetOf(text, loc.value.start, loc.value.len))
      else MatchRegex(lib, r, f, targets[1..])
  }

  function Digits(n: int): Bytes
    requires 0 <= n
  {
    if n < 10 then [0x30 + n] else Digits(n / 10) + [0x30 + n % 10]
  }

  function MatchRule(lib: Library, r: Rule, f: Fetch): Search {
    match r.matchType
    case StatusEq =>
      if f.status == FetchClean && r.code == Some(f.statusCode) && f.statusCode >= 0 then Found(Digits(f.statusCode)) else Missed
    case Keyword => MatchKeywords(lib, r, f)
    case Regex => if f.truncated then Missed else MatchRegex(lib, r, f, r.targets)
    case _ => Missed
  }

  // ---------- all rules on a probe ----------

  predicate InScope(r: Rule, domain: nat) { r.scope == [] || domain in r.scope }

  predicate Applies(r: Rule, domain: nat) { (r.enabled || r.id == 0) && InScope(r, domain) }

  /** The scheme in square brackets and a space. */
  function Bracketed(scheme: Bytes): Bytes { [0x5B as byte] + scheme + [0x5D, 0x20] }

  function Prefixed(scheme: Bytes, snippet: Bytes): Bytes { TruncateRunes(Bracketed(scheme) + snippet, 200) }

  function OnChannel(lib: Library, r: Rule, ch: Channel): seq<Match> {
    if ch.scheme == [] then []
    else
      match MatchRule(lib, r, ch.fetch)
      case Found(snippet) => [Match(r, Prefixed(ch.scheme, snippet))]
      case _ => []
  }

  predicate ChannelPanics(lib: Library, r: Rule, ch: Channel) { ch.scheme != [] && MatchRule(lib, r, ch.fetch) == OutOfRange }

  /** Matching this rule on this probe panics. */
  predicate Panics(lib: Library, r: Rule, domain: nat, probe: Probe) {
    && Applies(r, domain) && r.matchType != Unreachable
    && (ChannelPanics(lib, r, probe.primary.https) || ChannelPanics(lib, r, probe.primary.http))
  }

  /** And so does matching all rules, if one of them does. */
  predicate AnyPanics(lib: Library, rules: seq<Rule>, domain: nat, probe: Probe) {
    !probe.skipRuleMatch && exists r :: r in rules && Panics(lib, r, domain, probe)
  }

  /** The evidence of an unreachable site is what the last try says. */
  function OnProbe(lib: Library, r: Rule, domain: nat, probe: Probe): seq<Match> {
    if !Applies(r, domain) then []
    else if r.matchType == Unreachable then
      if ConfirmedUnreachable(probe)
      then [Match(r, TruncateRunes(if probe.second.Some? then probe.second.value.summary else probe.first.summary, 200))]
      else []
    else OnChannel(lib, r, probe.primary.https) + OnChannel(lib, r, probe.primary.http)
  }

  function Matches(lib: Library, rules: seq<Rule>, domain: nat, probe: Probe): seq<Match> {
    if rules == [] || probe.skipRuleMatch then []
    else Matches(lib, rules[..|rules| - 1], domain, probe) + OnProbe(lib, rules[|rules| - 1], domain, probe)
  }

  // ---------- soundness and completeness ----------

  /** The folding keeps lengths: what the source relies on when it cuts the match out of the unfolded text. */
  ghost predicate LengthPreserving(fold: Folding) { forall s :: |fold(s)| == |s| }

  predicate OccursInSome(texts: seq<Bytes>, kw: Bytes, fold: Folding) {
    exists text :: text in texts && KeywordOccurs(text, kw, fold)
  }

  /** The text of a target as it is searched. */
  predicate Searched(targets: seq<Target>, f: Fetch, text: Bytes) {
    exists t :: t in targets && GetTarget(t, f) != [] && text == Cut(GetTarget(t, f))
  }

  lemma {:induction false} FirstKeywordIff(text: Bytes, keywords: seq<Bytes>, fold: Folding)
    ensures FirstKeyword(text, keywords, fold) != Missed <==>
              exists kw :: kw in keywords && KeywordOccurs(text, kw, fold)
  {
    if keywords != [] {
      FirstKeywordIff(text, keywords[1..], fold);
      if kw :| kw in keywords && KeywordOccurs(text, kw, fold) {
        assert kw == keywords[0] || kw in keywords[1..];
      }
      assert keywords[0] in keywords;
    }
  }

  lemma {:induction false} KeywordAnyIff(targets: seq<Target>, f: Fetch, keywords: seq<Bytes>, fold: Folding)
    ensures KeywordAny(targets, f, keywords, fold) != Missed <==>
              exists text, kw :: Searched(targets, f, text) && kw in keywords && KeywordOccurs(text, kw, fold)
  {
    if targets != [] {
      KeywordAnyIff(targets[1..], f, keywords, fold);
      var text := GetTarget(targets[0], f);
      FirstKeywordIff(Cut(text), keywords, fold);
      assert forall t :: t in targets <==> t == targets[0] || t in targets[1..];
      assert forall s :: Searched(targets, f, s) <==> (text != [] && s == Cut(text)) || Searched(targets[1..], f, s);
    }
  }

  lemma {:induction false} TextsMembers(targets: seq<Target>, f: Fetch)
    ensures forall text :: text in Texts(targets, f) <==> Searched(targets, f, text)
  {
    if targets != [] {
      var init, last := targets[..|targets| - 1], targets[|targets| - 1];
      TextsMembers(init, f);
      assert forall t :: t in targets <==> t == last || t in init;
    }
  }

  lemma {:induction false} FindInIff(texts: seq<Bytes>, kw: Bytes, fold: Folding)
    ensures FindIn(texts, kw, fold) != Missed <==> OccursInSome(texts, kw, fold)
  {
    if texts != [] {
      FindInIff(texts[1..], kw, fold);
      if text :| text in texts && KeywordOccurs(text, kw, fold) {
        assert text == texts[0] || text in texts[1..];
      }
      assert texts[0] in texts;
    }
  }

  lemma {:induction false} KeywordAllIff(texts: seq<Bytes>, keywords: seq<Bytes>, fold: Folding, first: Bytes)
    requires KeywordAll(texts, keywords, fold, first) != OutOfRange
    ensures KeywordAll(texts, keywords, fold, first).Found? <==>
              forall kw :: kw in keywords ==> OccursInSome(texts, kw, fold)
  {
    if keywords != [] {
      FindInIff(texts, keywords[0], fold);
      var found := FindIn(texts, keywords[0], fold);
      if found != Missed {
        KeywordAllIff(texts, keywords[1..], fold, if first == [] then found.snippet else first);
      }
      assert forall kw :: kw in keywords <==> kw == keywords[0] || kw in keywords[1..];
      assert keywords[0] in keywords;
    }
  }

  ghost predicate OccursInTarget(lib: Library, r: Rule, f: Fetch, kw: Bytes) {
    exists text :: Searched(r.targets, f, text) && KeywordOccurs(text, kw, FoldOf(lib, r))
  }

  ghost predicate OneOccurs(lib: Library, r: Rule, f: Fetch) {
    exists kw :: kw in Trimmed(r.keywords) && OccursInTarget(lib, r, f, kw)
  }

  ghost predicate EachOccurs(lib: Library, r: Rule, f: Fetch) {
    forall kw :: kw in Trimmed(r.keywords) ==> OccursInTarget(lib, r, f, kw)
  }

  /** Whatever the folding: if matching does not panic, a keyword rule hits if and only if it has keywords and one of
      them, or each of them, occurs in some target. */
  lemma KeywordRuleHitsIff(lib: Library, r: Rule, f: Fetch)
    requires MatchKeywords(lib, r, f) != OutOfRange
    ensures MatchKeywords(lib, r, f).Found? <==>
      (Trimmed(r.keywords) != [] && if r.all then EachOccurs(lib, r, f) else OneOccurs(lib, r, f))
  {
    var kws, texts, fold := Trimmed(r.keywords), Texts(r.targets, f), FoldOf(lib, r);
    KeywordAnyIff(r.targets, f, kws, fold);
    if KeywordAll(texts, kws, fold, []) != OutOfRange { KeywordAllIff(texts, kws, fold, []); }
    TextsMembers(r.targets, f);
    forall kw ensures OccursInSome(texts, kw, fold) <==> OccursInTarget(lib, r, f, kw) {
      if text :| text in texts && KeywordOccurs(text, kw, fold) { assert Searched(r.targets, f, text); }
      if text :| Searched(r.targets, f, text) && KeywordOccurs(text, kw, fold) { assert text in texts; }
    }
    if kws != [] && r.all && texts == [] {
      assert kws[0] in kws && !OccursInSome(texts, kws[0], fold);
    }
  }

  // ---------- slices in range ----------

  /** Keyword j occurs in the text of target i. */
  predicate OccursHere(targets: seq<Target>, f: Fetch, keywords: seq<Bytes>, fold: Folding, i: nat, j: nat)
    requires i < |targets| && j < |keywords|
  {
    GetTarget(targets[i], f) != [] && KeywordOccurs(Cut(GetTarget(targets[i], f)), keywords[j], fold)
  }

  /** And none does in a target before that, nor an earlier keyword in the same target. */
  predicate FirstOccurs(targets: seq<Target>, f: Fetch, keywords: seq<Bytes>, fold: Folding, i: nat, j: nat) {
    && i < |targets| && j < |keywords| && OccursHere(targets, f, keywords, fold, i, j)
    && (forall b :: 0 <= b < j ==> !OccursHere(targets, f, keywords, fold, i, b))
    && (forall a, b :: 0 <= a < i && 0 <= b < |keywords| ==> !OccursHere(targets, f, keywords, fold, a, b))
  }

  lemma {:induction false} FirstKeywordIs(text: Bytes, keywords: seq<Bytes>, fold: Folding, j: nat)
    requires j < |keywords| && KeywordOccurs(text, keywords[j], fold)
    requires forall b :: 0 <= b < j ==> !KeywordOccurs(text, keywords[b], fold)
    ensures FirstKeyword(text, keywords, fold) == Report(text, keywords[j], fold)
  {
    if j > 0 { FirstKeywordIs(text, keywords[1..], fold, j - 1); }
  }

  lemma NoKeywordHere(text: Bytes, keywords: seq<Bytes>, fold: Folding)
    requires forall b :: 0 <= b < |keywords| ==> !KeywordOccurs(text, keywords[b], fold)
    ensures FirstKeyword(text, keywords, fold) == Missed
  {
    FirstKeywordIff(text, keywords, fold);
  }

  lemma FirstOccursInRest(targets: seq<Target>, f: Fetch, keywords: seq<Bytes>, fold: Folding, i: nat, j: nat)
    requires FirstOccurs(targets, f, keywords, fold, i, j) && i > 0
    ensures FirstOccurs(targets[1..], f, keywords, fold, i - 1, j)
  {
    forall a, b | 0 <= a < i - 1 && 0 <= b < |keywords| ensures !OccursHere(targets[1..], f, keywords, fold, a, b) {
      assert !OccursHere(targets, f, keywords, fold, a + 1, b);
    }
    var k := i - 1;
    forall b | 0 <= b < j ensures !OccursHere(targets[1..], f, keywords, fold, k, b) {
      assert !OccursHere(targets, f, keywords, fold, i, b);
    }
  }

  /** A rule that asks for any keyword reports the first occurrence, in the order of targets and then of keywords; so it
      panics if and only if there is one and its slice is out of range. */
  lemma {:induction false} AnyReportsFirst(targets: seq<Target>, f: Fetch, keywords: seq<Bytes>, fold: Folding, i: nat, j: nat)
    requires FirstOccurs(targets, f, keywords, fold, i, j)
    ensures KeywordAny(targets, f, keywords, fold) == Report(Cut(GetTarget(targets[i], f)), keywords[j], fold)
  {
    var text := GetTarget(targets[0], f);
    if i == 0 {
      forall b | 0 <= b < j ensures !KeywordOccurs(Cut(text), keywords[b], fold) {
        assert !OccursHere(targets, f, keywords, fold, 0, b);
      }
      FirstKeywordIs(Cut(text), keywords, fold, j);
    } else {
      if text != [] {
        forall b | 0 <= b < |keywords| ensures !KeywordOccurs(Cut(text), keywords[b], fold) {
          assert !OccursHere(targets, f, keywords, fold, 0, b);
        }
        NoKeywordHere(Cut(text), keywords, fold);
      }
      FirstOccursInRest(targets, f, keywords, fold, i, j);
      AnyReportsFirst(targets[1..], f, keywords, fold, i - 1, j);
    }
  }

  /** The slice for keyword i is out of range, and those for the keywords before it are behind the end. */
  predicate FirstSlicePanics(texts: seq<Bytes>, keywords: seq<Bytes>, fold: Folding, i: nat) {
    && i < |keywords| && FindIn(texts, keywords[i], fold) == OutOfRange
    && forall j :: 0 <= j < i ==> FindIn(texts, keywords[j], fold) == Found([])
  }

  lemma {:induction false} SnippetSettlesAll(texts: seq<Bytes>, keywords: seq<Bytes>, fold: Folding, first: Bytes)
    requires first != []
    ensures KeywordAll(texts, keywords, fold, first) in {Missed, Found(first)}
  {
    if keywords != [] { SnippetSettlesAll(texts, keywords[1..], fold, first); }
  }

  /** A rule that asks for all keywords panics if and only if the first slice that is not behind the end is out of
      range: after a snippet no more slices are taken. */
  lemma {:induction false} AllPanicsIff(texts: seq<Bytes>, keywords: seq<Bytes>, fold: Folding)
    ensures KeywordAll(texts, keywords, fold, []) == OutOfRange <==>
              exists i: nat :: FirstSlicePanics(texts, keywords, fold, i)
  {
    if keywords != [] {
      var found, rest := FindIn(texts, keywords[0], fold), keywords[1..];
      if found == Found([]) {
        AllPanicsIff(texts, rest, fold);
        if i: nat :| FirstSlicePanics(texts, keywords, fold, i) { PanicsInRest(texts, keywords, fold, i); }
        if i: nat :| FirstSlicePanics(texts, rest, fold, i) { PanicsInRest(texts, keywords, fold, i + 1); }
      } else if found.Found? {
        SnippetSettlesAll(texts, rest, fold, found.snippet);
      } else if found == OutOfRange {
        assert FirstSlicePanics(texts, keywords, fold, 0);
      }
    }
  }

  lemma PanicsInRest(texts: seq<Bytes>, keywords: seq<Bytes>, fold: Folding, i: nat)
    requires keywords != [] && FindIn(texts, keywords[0], fold) == Found([])
    ensures i > 0 ==> (FirstSlicePanics(texts, keywords, fold, i) <==> FirstSlicePanics(texts, keywords[1..], fold, i - 1))
    ensures i == 0 ==> !FirstSlicePanics(texts, keywords, fold, i)
  {
    if i > 0 && FirstSlicePanics(texts, keywords[1..], fold, i - 1) {
      forall j | 0 <= j < i ensures FindIn(texts, keywords[j], fold) == Found([]) {
        if j > 0 { assert keywords[1..][j - 1] == keywords[j]; }
      }
    }
  }

  lemma {:induction false} FirstKeywordInRange(text: Bytes, keywords: seq<Bytes>, fold: Folding)
    requires LengthPreserving(fold)
    ensures FirstKeyword(text, keywords, fold) != OutOfRange
  {
    if keywords != [] { FirstKeywordInRange(text, keywords[1..], fold); }
  }

  lemma {:induction false} AnyInRange(targets: seq<Target>, f: Fetch, keywords: seq<Bytes>, fold: Folding)
    requires LengthPreserving(fold)
    ensures KeywordAny(targets, f, keywords, fold) != OutOfRange
  {
    if targets != [] {
      FirstKeywordInRange(Cut(GetTarget(targets[0], f)), keywords, fold);
      AnyInRange(targets[1..], f, keywords, fold);
    }
  }

  lemma {:induction false} FindInRange(texts: seq<Bytes>, kw: Bytes, fold: Folding)
    requires LengthPreserving(fold)
    ensures FindIn(texts, kw, fold) != OutOfRange
  {
    if texts != [] { FindInRange(texts[1..], kw, fold); }
  }

  /** With a folding that keeps lengths no slice is out of range. */
  lemma KeptLengthsNeverPanic(lib: Library, r: Rule, f: Fetch)
    requires LengthPreserving(lib.lower)
    ensures MatchKeywords(lib, r, f) != OutOfRange
  {
    var kws, texts, fold := Trimmed(r.keywords), Texts(r.targets, f), FoldOf(lib, r);
    AnyInRange(r.targets, f, kws, fold);
    AllPanicsIff(texts, kws, fold);
    forall kw ensures FindIn(texts, kw, fold) != OutOfRange { FindInRange(texts, kw, fold); }
  }

  /** As lower-casing does to texts that are not ASCII, in which it finds an invalid byte. */
  function Replaced(s: Bytes): Bytes {
    if s == [] then [] else (if s[0] == 0xFF then [0xEF as byte, 0xBF, 0xBD] else [s[0]]) + Replaced(s[1..])
  }

  const AB: Bytes := [0x61, 0x62]

  const BROKEN: Bytes := [0xFF, 0x61, 0x62, 0x63]

  lemma BrokenIsReplaced()
    ensures Replaced(AB) == AB && Replaced(BROKEN) == [0xEF, 0xBF, 0xBD, 0x61, 0x62, 0x63]
  {
    var rest: Bytes := BROKEN[1..];
    assert rest == [0x61, 0x62, 0x63] && rest[1..] == [0x62, 0x63] && rest[1..][1..] == [0x63] && rest[1..][1..][1..] == [];
    assert Replaced(rest[1..][1..]) == [0x63];
    assert Replaced(rest[1..]) == [0x62, 0x63];
    assert Replaced(rest) == rest;
    assert AB[1..] == [0x62] && AB[1..][1..] == [];
    assert Replaced(AB[1..]) == [0x62];
  }

  /** One invalid byte before the keyword is enough: the text grows by two, and the place found in it reaches over the
      end of the text as it is. */
  lemma InvalidByteMakesMatchingPanic(lib: Library, r: Rule, f: Fetch)
    requires lib.lower == Replaced && !r.caseSensitive && !r.all && r.targets == [Body] && Trimmed(r.keywords) == [AB]
    requires f.body == BROKEN
    ensures MatchKeywords(lib, r, f) == OutOfRange
  {
    BrokenIsReplaced();
    var text := Replaced(BROKEN);
    assert OccursAt(text, AB, 3) && KeywordOccurs(BROKEN, AB, Replaced);
    forall j | 0 <= j <= 6 && OccursAt(text, AB, j) ensures j == 3 { assert text[j..j + 2][0] == text[j]; }
    assert FindKeyword(BROKEN, AB, Replaced) == 3;
    AnyReportsFirst(r.targets, f, [AB], Replaced, 0, 0);
  }

  // ---------- regular expressions ----------

  /** The pattern matches in the text of a target. */
  predicate Finds(lib: Library, r: Rule, text: Bytes) {
    var loc := lib.find(r, text);
    text != [] && loc.Some? && loc.value.start + loc.value.len <= |text|
  }

  predicate FindsIn(lib: Library, r: Rule, f: Fetch, t: Target) { Finds(lib, r, Cut(GetTarget(t, f))) }

  /** Target i is the first in which the pattern matches. */
  predicate FirstFinds(lib: Library, r: Rule, f: Fetch, targets: seq<Target>, i: nat) {
    i < |targets| && FindsIn(lib, r, f, targets[i]) && forall j :: 0 <= j < i ==> !FindsIn(lib, r, f, targets[j])
  }

  lemma FirstFindsInRest(lib: Library, r: Rule, f: Fetch, targets: seq<Target>, i: nat)
    requires targets != [] && !FindsIn(lib, r, f, targets[0]) && i > 0
    ensures FirstFinds(lib, r, f, targets, i) <==> FirstFinds(lib, r, f, targets[1..], i - 1)
  {
    if FirstFinds(lib, r, f, targets[1..], i - 1) {
      forall j | 0 <= j < i ensures !FindsIn(lib, r, f, targets[j]) {
        if j > 0 { assert targets[1..][j - 1] == targets[j]; }
      }
    }
  }

  /** A regular expression hits if and only if it matches in some target. */
  lemma {:induction false} RegexHitsIff(lib: Library, r: Rule, f: Fetch, targets: seq<Target>)
    ensures MatchRegex(lib, r, f, targets) != OutOfRange
    ensures MatchRegex(lib, r, f, targets).Found? <==> exists t :: t in targets && FindsIn(lib, r, f, t)
  {
    if targets != [] {
      RegexHitsIff(lib, r, f, targets[1..]);
      assert targets[0] in targets;
      if t :| t in targets && FindsIn(lib, r, f, t) {
        assert t == targets[0] || t in targets[1..];
      }
    }
  }

  /** What is reported is its match in the first of these. */
  lemma {:induction false} RegexReportsFirstTarget(lib: Library, r: Rule, f: Fetch, targets: seq<Target>, i: nat)
    requires FirstFinds(lib, r, f, targets, i)
    ensures var text := Cut(GetTarget(targets[i], f)); var loc := lib.find(r, text).value;
      MatchRegex(lib, r, f, targets) == Found(SnippetOf(text, loc.start, loc.len))
  {
    if i > 0 {
      FirstFindsInRest(lib, r, f, targets, i);
      RegexReportsFirstTarget(lib, r, f, targets[1..], i - 1);
    }
  }

  /** Status rules hit clean fetches with their code, and report it. Rules with a pattern do not search a page that was
      cut; keyword rules do. */
  lemma MatchRuleMeans(lib: Library, r: Rule, f: Fetch)
    ensures r.matchType == StatusEq ==>
      (MatchRule(lib, r, f) != Missed <==> f.status == FetchClean && r.code == Some(f.statusCode) && 0 <= f.statusCode)
    ensures r.matchType == StatusEq && 0 <= f.statusCode && MatchRule(lib, r, f) != Missed ==>
      MatchRule(lib, r, f) == Found(Digits(f.statusCode)) && Number(Digits(f.statusCode)) == f.statusCode
    ensures r.matchType == Regex ==>
      (MatchRule(lib, r, f) != Missed <==> !f.truncated && exists t :: t in r.targets && FindsIn(lib, r, f, t))
    ensures r.matchType == Keyword ==> MatchRule(lib, r, f) == MatchKeywords(lib, r, f)
    ensures r.matchType == Unreachable || r.matchType == UnknownType ==> MatchRule(lib, r, f) == Missed
  {
    RegexHitsIff(lib, r, f, r.targets);
    if 0 <= f.statusCode { DigitsSay(f.statusCode); }
  }

  /** What a sequence of decimal digits says. */
  function Number(digits: Bytes): int {
    if digits == [] then 0 else 10 * Number(digits[..|digits| - 1]) + digits[|digits| - 1] - 0x30
  }

  lemma {:induction false} DigitsSay(n: int)
    requires 0 <= n
    ensures Number(Digits(n)) == n
    decreases n
  {
    var d := Digits(n);
    if n < 10 {
      assert d[..0] == [];
    } else {
      DigitsSay(n / 10);
      assert d[..|d| - 1] == Digits(n / 10);
    }
  }

  /** What one rule reports of a probe: nothing unless it is enabled or a draft, and the domain in its scope. A rule on
      unreachable sites reports the last try; the others report HTTPS before HTTP, each with its scheme. */
  lemma ReportedOfRule(lib: Library, r: Rule, domain: nat, p: Probe)
    ensures !((r.enabled || r.id == 0) && (r.scope == [] || domain in r.scope)) ==> OnProbe(lib, r, domain, p) == []
    ensures (r.enabled || r.id == 0) && (r.scope == [] || domain in r.scope) ==>
      OnProbe(lib, r, domain, p) ==
        if r.matchType == Unreachable then
          (if !ConfirmedUnreachable(p) then [] else [Match(r, TruncateRunes(p.second.value.summary, 200))])
        else ReportOf(lib, r, p.primary.https) + ReportOf(lib, r, p.primary.http)
  {
  }

  function ReportOf(lib: Library, r: Rule, ch: Channel): seq<Match> {
    if ch.scheme == [] || !MatchRule(lib, r, ch.fetch).Found? then []
    else [Match(r, TruncateRunes([0x5B as byte] + ch.scheme + [0x5D, 0x20] + MatchRule(lib, r, ch.fetch).snippet, 200))]
  }

  /** Matches are reported rule by rule, in the order of the rules. */
  lemma {:induction false} MatchesInOrder(lib: Library, before: seq<Rule>, rules: seq<Rule>, domain: nat, p: Probe)
    requires !p.skipRuleMatch
    ensures Matches(lib, before + rules, domain, p) == Matches(lib, before, domain, p) + Matches(lib, rules, domain, p)
  {
    if rules == [] {
      assert before + rules == before;
    } else {
      var init, last := rules[..|rules| - 1], rules[|rules| - 1];
      MatchesInOrder(lib, before, init, domain, p);
      assert rules == init + [last];
      OneMoreInOrder(lib, before, init, last, domain, p);
    }
  }

  lemma OneMoreInOrder(lib: Library, before: seq<Rule>, init: seq<Rule>, last: Rule, domain: nat, p: Probe)
    requires !p.skipRuleMatch
    requires Matches(lib, before + init, domain, p) == Matches(lib, before, domain, p) + Matches(lib, init, domain, p)
    ensures Matches(lib, before + (init + [last]), domain, p)
         == Matches(lib, before, domain, p) + Matches(lib, init + [last], domain, p)
  {
    assert before + (init + [last]) == (before + init) + [last];
    OneRuleLast(lib, init, last, domain, p);
    OneRuleLast(lib, before + init, last, domain, p);
    Associated(Matches(lib, before, domain, p), Matches(lib, init, domain, p), OnProbe(lib, last, domain, p));
  }

  lemma Associated(a: seq<Match>, b: seq<Match>, c: seq<Match>)
    ensures (a + b) + c == a + (b + c)
  {
  }

  lemma MatchesOfOne(lib: Library, r: Rule, domain: nat, p: Probe)
    requires !p.skipRuleMatch
    ensures Matches(lib, [r], domain, p) == OnProbe(lib, r, domain, p)
  {
    assert [r] == [] + [r];
    OneRuleLast(lib, [], r, domain, p);
  }

  lemma OneRuleLast(lib: Library, rules: seq<Rule>, r: Rule, domain: nat, p: Probe)
    requires !p.skipRuleMatch
    ensures Matches(lib, rules + [r], domain, p) == Matches(lib, rules, domain, p) + OnProbe(lib, r, domain, p)
  {
    assert (rules + [r])[..|rules|] == rules;
  }

  /** After a first failure that the second try did not confirm, nothing is matched. */
  lemma NothingIsMatchedOnceSkipped(lib: Library, rules: seq<Rule>, domain: nat, p: Probe)
    requires p.skipRuleMatch
    ensures Matches(lib, rules, domain, p) == [] && !AnyPanics(lib, rules, domain, p)
  {
  }

  /** A match is reported if and only if its rule is among the rules, applies to the domain, and hits. */
  lemma {:induction false} MatchesIff(lib: Library, rules: seq<Rule>, domain: nat, probe: Probe, m: Match)
    requires !probe.skipRuleMatch
    ensures m in Matches(lib, rules, domain, probe) <==> m.rule in rules && m in OnProbe(lib, m.rule, domain, probe)
  {
    if rules != [] {
      var init, last := rules[..|rules| - 1], rules[|rules| - 1];
      MatchesIff(lib, init, domain, probe, m);
      assert forall r :: r in rules <==> r == last || r in init;
    }
  }
}
