/** Which rules the content hash decides, and so for which the clean-hash shortcut agrees with matching. The hash covers
    bodies and fetch statuses, and with the bodies the titles; it covers neither final URLs nor status codes. */
module DecidedRules {
  import opened ByteStrings
  import opened Fetching
  import opened Snippets
  import opened RuleEngine
  import opened CleanHash

  // ---------- rules on bodies and titles ----------

  lemma {:induction false} SameTexts(targets: seq<Target>, f: Fetch, g: Fetch)
    requires forall t :: t in targets ==> GetTarget(t, f) == GetTarget(t, g)
    ensures Texts(targets, f) == Texts(targets, g)
  {
    if targets != [] {
      assert targets[|targets| - 1] in targets;
      SameTexts(targets[..|targets| - 1], f, g);
    }
  }

  lemma {:induction false} SameKeywordAny(targets: seq<Target>, f: Fetch, g: Fetch, keywords: seq<Bytes>, fold: Folding)
    requires forall t :: t in targets ==> GetTarget(t, f) == GetTarget(t, g)
    ensures KeywordAny(targets, f, keywords, fold) == KeywordAny(targets, g, keywords, fold)
  {
    if targets != [] {
      assert targets[0] in targets;
      SameKeywordAny(targets[1..], f, g, keywords, fold);
    }
  }

  lemma {:induction false} SameRegex(lib: Library, r: Rule, targets: seq<Target>, f: Fetch, g: Fetch)
    requires forall t :: t in targets ==> GetTarget(t, f) == GetTarget(t, g)
    ensures MatchRegex(lib, r, f, targets) == MatchRegex(lib, r, g, targets)
  {
    if targets != [] {
      assert targets[0] in targets;
      SameRegex(lib, r, targets[1..], f, g);
    }
  }

  predicate LooksAtTexts(r: Rule) { r.matchType == Keyword || r.matchType == Regex }

  lemma SameMatch(lib: Library, r: Rule, f: Fetch, g: Fetch)
    requires LooksAtTexts(r) && f.truncated == g.truncated && forall t :: t in r.targets ==> GetTarget(t, f) == GetTarget(t, g)
    ensures MatchRule(lib, r, f) == MatchRule(lib, r, g)
  {
    SameTexts(r.targets, f, g);
    SameKeywordAny(r.targets, f, g, Trimmed(r.keywords), FoldOf(lib, r));
    SameRegex(lib, r, r.targets, f, g);
  }

  lemma PrimaryIsFetched(cx: Context, p: Probe)
    requires WellProbed(cx, p)
    ensures FetchedDual(cx.fetcher, p.primary)
  {
  }

  /** Of a probe of two channels a rule takes notice if and only if it is enabled, in scope, and does so of a channel or
      of the unreachable site. */
  lemma TouchesIff(cx: Context, r: Rule, sub: nat, p: Probe)
    requires p.primary.https.scheme != [] && p.primary.http.scheme != []
    ensures Touches(cx, r, sub, p) <==>
            (r.enabled && InScope(r, cx.domainOf(sub)) &&
              (if r.matchType == Unreachable then ConfirmedUnreachable(p)
               else MatchRule(cx.lib, r, p.primary.https.fetch) != Missed
                    || MatchRule(cx.lib, r, p.primary.http.fetch) != Missed))
  {
  }

  // ---------- sites that answer on one channel ----------

  /** A response with this body. */
  function Page(fetcher: Fetcher, body: Bytes, url: Bytes, code: int): Fetch {
    Fetch(body, body, if body == [] then [] else fetcher.titleOf(body), url, code, FetchClean, false, false)
  }

  const DOWN := Fetch([], [], [], [], 0, FetchUnreachable, false, false)

  function Site(page: Fetch): Dual { Dual(Channel(HTTPS, page), Channel(HTTP, DOWN), []) }

  lemma SiteIsUsable(cx: Context, page: Fetch)
    requires Fetched(cx.fetcher, page) && page.status == FetchClean
    ensures var d := Site(page); var p := Confirm(d, d);
      && Usable(cx, p) && p.primary == d && CombinedContentHash(p.primary) == Hash(page.read, [], FetchClean, FetchUnreachable)
      && (if StatusInaccessible(page.statusCode) then ConfirmedUnreachable(p) else StatusFromProbe(p) == Clean)
  {
  }

  lemma {:induction false} NoTextsNoMatch(lib: Library, r: Rule, targets: seq<Target>, f: Fetch, keywords: seq<Bytes>, fold: Folding)
    requires forall t :: t in targets ==> GetTarget(t, f) == []
    ensures KeywordAny(targets, f, keywords, fold) == Missed && Texts(targets, f) == [] && MatchRegex(lib, r, f, targets) == Missed
  {
    if targets != [] {
      assert targets[0] in targets && targets[|targets| - 1] in targets;
      NoTextsNoMatch(lib, r, targets[1..], f, keywords, fold);
      NoTextsNoMatch(lib, r, targets[..|targets| - 1], f, keywords, fold);
    }
  }

  lemma NothingIsMissed(lib: Library, r: Rule, f: Fetch)
    requires f.body == [] && f.title == [] && f.finalURL == [] && f.status != FetchClean
    ensures MatchRule(lib, r, f) == Missed
  {
    forall t: Target ensures GetTarget(t, f) == [] { }
    if LooksAtTexts(r) { NoTextsNoMatch(lib, r, r.targets, f, Trimmed(r.keywords), FoldOf(lib, r)); }
  }

  /** An enabled rule, and some subdomain in its scope. */
  ghost predicate InUse(cx: Context, r: Rule) { r.enabled && exists sub :: InScope(r, cx.domainOf(sub)) }

  /** Two pages with the same body that the rule tells apart. */
  lemma TellsApart(cx: Context, r: Rule, page: Fetch, other: Fetch)
    requires InUse(cx, r) && Fetched(cx.fetcher, page) && Fetched(cx.fetcher, other) && page.read == other.read
    requires page.status == FetchClean && other.status == FetchClean && !StatusInaccessible(other.statusCode)
    requires if r.matchType == Unreachable then StatusInaccessible(page.statusCode)
             else MatchRule(cx.lib, r, page) != Missed && MatchRule(cx.lib, r, other) == Missed
    ensures !HashDecides(cx, r)
  {
    var sub :| InScope(r, cx.domainOf(sub));
    var p, q := Confirm(Site(other), Site(other)), Confirm(Site(page), Site(page));
    SiteIsUsable(cx, page);
    SiteIsUsable(cx, other);
    NothingIsMissed(cx.lib, r, DOWN);
    TouchesIff(cx, r, sub, p);
    TouchesIff(cx, r, sub, q);
    assert Touches(cx, r, sub, q) && !Touches(cx, r, sub, p);
  }

  // ---------- keyword and regex rules ----------

  /** The rule takes notice of a page with some final URL, and not of the same page with another. */
  ghost predicate UrlMatters(cx: Context, r: Rule) {
    exists b, u, v :: UrlTells(cx, r, b, u, v)
  }

  predicate UrlTells(cx: Context, r: Rule, body: Bytes, u: Bytes, v: Bytes) {
    && |body| <= cx.fetcher.maxBody && cx.fetcher.urls(u) && cx.fetcher.urls(v)
    && MatchRule(cx.lib, r, Page(cx.fetcher, body, u, 200)) != Missed
    && MatchRule(cx.lib, r, Page(cx.fetcher, body, v, 200)) == Missed
  }

  /** What one channel shows of a readable probe and of another with the same hash. */
  lemma ChannelTells(cx: Context, r: Rule, f: Fetch, g: Fetch)
    requires LooksAtTexts(r) && Fetched(cx.fetcher, f) && Fetched(cx.fetcher, g) && !g.truncated
    requires f.read == g.read && f.status == g.status
    requires MatchRule(cx.lib, r, f) != Missed && MatchRule(cx.lib, r, g) == Missed
    ensures UrlMatters(cx, r)
  {
    if f.status != FetchClean {
      NothingIsMissed(cx.lib, r, f);
      assert false;
    }
    var u, v, b := f.finalURL, g.finalURL, f.read;
    SameMatch(cx.lib, r, f, Page(cx.fetcher, b, u, 200));
    SameMatch(cx.lib, r, g, Page(cx.fetcher, b, v, 200));
    assert UrlTells(cx, r, b, u, v);
  }

  /** The hash decides a keyword or regex rule in use if and only if no page shows it something else at another URL. */
  lemma TextRuleIsDecidedIff(cx: Context, r: Rule)
    requires InUse(cx, r) && LooksAtTexts(r)
    ensures HashDecides(cx, r) <==> !UrlMatters(cx, r)
  {
    if b, u, v :| UrlTells(cx, r, b, u, v) { UrlTellsApart(cx, r, b, u, v); }
    if !HashDecides(cx, r) {
      var sub, p, q := SomethingTells(cx, r);
      ProbesTell(cx, r, sub, p, q);
    }
  }

  lemma UrlTellsApart(cx: Context, r: Rule, body: Bytes, u: Bytes, v: Bytes)
    requires InUse(cx, r) && LooksAtTexts(r) && UrlTells(cx, r, body, u, v)
    ensures !HashDecides(cx, r)
  {
    TellsApart(cx, r, Page(cx.fetcher, body, u, 200), Page(cx.fetcher, body, v, 200));
  }

  lemma SomethingTells(cx: Context, r: Rule) returns (sub: nat, p: Probe, q: Probe)
    requires !HashDecides(cx, r)
    ensures Tells(cx, r, sub, p, q)
  {
    sub, p, q :| Usable(cx, p) && Usable(cx, q) && StatusFromProbe(p) == Clean
                 && CombinedContentHash(p.primary) == CombinedContentHash(q.primary)
                 && Touches(cx, r, sub, q) && !Touches(cx, r, sub, p);
  }

  /** Readable probes with the same hash, channel by channel. */
  lemma SameHash(cx: Context, p: Probe, q: Probe)
    requires Usable(cx, p) && Usable(cx, q) && StatusFromProbe(p) == Clean
    requires CombinedContentHash(p.primary) == CombinedContentHash(q.primary)
    ensures var (f, g) := (q.primary.https.fetch, p.primary.https.fetch);
      Fetched(cx.fetcher, f) && Fetched(cx.fetcher, g) && !g.truncated && f.read == g.read && f.status == g.status
    ensures var (f, g) := (q.primary.http.fetch, p.primary.http.fetch);
      Fetched(cx.fetcher, f) && Fetched(cx.fetcher, g) && !g.truncated && f.read == g.read && f.status == g.status
  {
    PrimaryIsFetched(cx, p);
    PrimaryIsFetched(cx, q);
  }

  lemma ProbesTell(cx: Context, r: Rule, sub: nat, p: Probe, q: Probe)
    requires LooksAtTexts(r) && Tells(cx, r, sub, p, q)
    ensures UrlMatters(cx, r)
  {
    SameHash(cx, p, q);
    TouchesOfTexts(cx, r, sub, p);
    TouchesOfTexts(cx, r, sub, q);
    if MatchRule(cx.lib, r, q.primary.https.fetch) != Missed {
      ChannelTells(cx, r, q.primary.https.fetch, p.primary.https.fetch);
    } else {
      ChannelTells(cx, r, q.primary.http.fetch, p.primary.http.fetch);
    }
  }

  lemma TouchesOfTexts(cx: Context, r: Rule, sub: nat, p: Probe)
    requires LooksAtTexts(r) && Usable(cx, p)
    ensures Touches(cx, r, sub, p) <==>
            (r.enabled && InScope(r, cx.domainOf(sub))
             && (MatchRule(cx.lib, r, p.primary.https.fetch) != Missed || MatchRule(cx.lib, r, p.primary.http.fetch) != Missed))
  {
    PrimaryIsFetched(cx, p);
    TouchesIff(cx, r, sub, p);
  }

  /** A readable probe of which the rule takes no notice, and one with the same hash of which it does. */
  ghost predicate Tells(cx: Context, r: Rule, sub: nat, p: Probe, q: Probe) {
    && Usable(cx, p) && Usable(cx, q) && StatusFromProbe(p) == Clean
    && CombinedContentHash(p.primary) == CombinedContentHash(q.primary) && Touches(cx, r, sub, q) && !Touches(cx, r, sub, p)
  }

  // ---------- rules on status codes and reachability ----------

  /** Requests end at some URL. */
  ghost predicate Answers(fetcher: Fetcher) { exists u :: fetcher.urls(u) }

  /** The hash decides a rule on a status code if and only if no response has that code. */
  lemma StatusRuleIsDecidedIff(cx: Context, r: Rule)
    requires InUse(cx, r) && r.matchType == StatusEq
    ensures HashDecides(cx, r) <==> !(r.code.Some? && FinalCode(r.code.value) && Answers(cx.fetcher))
  {
    if r.code.Some? && FinalCode(r.code.value) && Answers(cx.fetcher) {
      var u :| cx.fetcher.urls(u);
      TellsApart(cx, r, Page(cx.fetcher, [], u, r.code.value), Page(cx.fetcher, [], u, if r.code.value == 200 then 204 else 200));
    }
    if !HashDecides(cx, r) {
      var sub, p, q := SomethingTells(cx, r);
      PrimaryIsFetched(cx, q);
      TouchesIff(cx, r, sub, q);
      var f := if MatchRule(cx.lib, r, q.primary.https.fetch) != Missed then q.primary.https.fetch else q.primary.http.fetch;
      assert cx.fetcher.urls(f.finalURL);
    }
  }

  lemma ReadableAnswers(cx: Context, p: Probe)
    requires Usable(cx, p) && StatusFromProbe(p) == Clean
    ensures Answers(cx.fetcher)
  {
    var f := if ChannelInaccessible(p.first.https.fetch) then p.first.http.fetch else p.first.https.fetch;
    assert !SiteUnreachable(p.first) && f.status == FetchClean;
    assert cx.fetcher.urls(f.finalURL);
  }

  /** A site that goes on answering with the same body but an error status is unreachable to the engine and unchanged
      to the hash. So the hash decides no rule on unreachable sites, unless nothing ever answers. */
  lemma UnreachableRuleIsDecidedIff(cx: Context, r: Rule)
    requires InUse(cx, r) && r.matchType == Unreachable
    ensures HashDecides(cx, r) <==> !Answers(cx.fetcher)
  {
    if u :| cx.fetcher.urls(u) { TellsApart(cx, r, Page(cx.fetcher, [], u, 503), Page(cx.fetcher, [], u, 200)); }
    if !HashDecides(cx, r) {
      var sub, p, q := SomethingTells(cx, r);
      ReadableAnswers(cx, p);
    }
  }

  // ---------- all rules ----------

  ghost predicate Escapes(cx: Context, r: Rule) {
    match r.matchType
    case StatusEq => r.code.Some? && FinalCode(r.code.value) && Answers(cx.fetcher)
    case Unreachable => Answers(cx.fetcher)
    case UnknownType => false
    case _ => UrlMatters(cx, r)
  }

  lemma IdleRuleIsDecided(cx: Context, r: Rule)
    requires !InUse(cx, r) || r.matchType == UnknownType
    ensures HashDecides(cx, r)
  {
    forall sub, q | Usable(cx, q) ensures !Touches(cx, r, sub, q) {
      PrimaryIsFetched(cx, q);
      TouchesIff(cx, r, sub, q);
    }
  }

  /** Exactly: the hash decides a rule unless the rule is in use and either looks at something in the final URL, or at a
      status code that a response can have, or at reachability. */
  lemma DecidedIff(cx: Context, r: Rule)
    ensures HashDecides(cx, r) <==> !(InUse(cx, r) && Escapes(cx, r))
  {
    if !InUse(cx, r) || r.matchType == UnknownType { IdleRuleIsDecided(cx, r); }
    else if LooksAtTexts(r) { TextRuleIsDecidedIff(cx, r); }
    else if r.matchType == StatusEq { StatusRuleIsDecidedIff(cx, r); }
    else { UnreachableRuleIsDecidedIff(cx, r); }
  }

  // ---------- rules that do and do not look at final URLs ----------

  /** Keyword and regex rules that do not look at the final URL are decided by the hash. */
  lemma TextRulesAreDecided(cx: Context, r: Rule)
    requires LooksAtTexts(r) && FinalURL !in r.targets
    ensures HashDecides(cx, r)
  {
    forall b, u, v ensures !UrlTells(cx, r, b, u, v) {
      SameMatch(cx.lib, r, Page(cx.fetcher, b, u, 200), Page(cx.fetcher, b, v, 200));
    }
    DecidedIff(cx, r);
  }

  /** So with such rules only, every skip in every orderly history is right. */
  lemma TextRulesAreSafe(cx: Context, allowed: Rule -> bool)
    requires forall r :: allowed(r) ==> LooksAtTexts(r) && FinalURL !in r.targets
    ensures AlwaysRight(cx, allowed)
  {
    forall r | allowed(r) ensures HashDecides(cx, r) { TextRulesAreDecided(cx, r); }
    AlwaysRightIffDecided(cx, allowed);
  }

  predicate InUrl(lib: Library, r: Rule, kw: Bytes, url: Bytes) { url != [] && KeywordOccurs(Cut(url), kw, FoldOf(lib, r)) }

  lemma KeywordInUrl(lib: Library, r: Rule, f: Fetch, kw: Bytes)
    requires r.matchType == Keyword && !r.all && FinalURL in r.targets && kw in Trimmed(r.keywords) && InUrl(lib, r, kw, f.finalURL)
    ensures MatchRule(lib, r, f) != Missed
  {
    KeywordAnyIff(r.targets, f, Trimmed(r.keywords), FoldOf(lib, r));
    assert GetTarget(FinalURL, f) == f.finalURL;
    assert Searched(r.targets, f, Cut(f.finalURL));
  }

  /** A rule that looks for any of its keywords in the final URL, and finds one in every URL, is decided. */
  lemma KeywordOfEveryUrl(cx: Context, r: Rule, kw: Bytes)
    requires r.matchType == Keyword && !r.all && FinalURL in r.targets && kw in Trimmed(r.keywords)
    requires forall u :: cx.fetcher.urls(u) ==> InUrl(cx.lib, r, kw, u)
    ensures HashDecides(cx, r)
  {
    forall b, u, v ensures !UrlTells(cx, r, b, u, v) {
      if cx.fetcher.urls(v) { KeywordInUrl(cx.lib, r, Page(cx.fetcher, b, v, 200), kw); }
    }
    DecidedIff(cx, r);
  }

  /** So is a rule whose pattern matches in every URL. */
  lemma PatternOfEveryUrl(cx: Context, r: Rule)
    requires r.matchType == Regex && FinalURL in r.targets
    requires forall u :: cx.fetcher.urls(u) ==> Finds(cx.lib, r, Cut(u))
    ensures HashDecides(cx, r)
  {
    forall b, u, v ensures !UrlTells(cx, r, b, u, v) {
      if cx.fetcher.urls(v) {
        var f := Page(cx.fetcher, b, v, 200);
        assert FindsIn(cx.lib, r, f, FinalURL);
        RegexHitsIff(cx.lib, r, f, r.targets);
      }
    }
    DecidedIff(cx, r);
  }

  lemma NoKeywordInUrl(lib: Library, r: Rule, f: Fetch)
    requires r.matchType == Keyword && !r.all && f.body == [] && f.title == []
    requires forall k :: k in Trimmed(r.keywords) ==> !InUrl(lib, r, k, f.finalURL)
    ensures MatchRule(lib, r, f) == Missed
  {
    var kws, fold := Trimmed(r.keywords), FoldOf(lib, r);
    KeywordAnyIff(r.targets, f, kws, fold);
    assert forall text :: Searched(r.targets, f, text) ==> f.finalURL != [] && text == Cut(f.finalURL);
  }

  /** It is not decided if some URL has one of its keywords and some URL has none. */
  lemma KeywordOfSomeUrls(cx: Context, r: Rule, kw: Bytes, u: Bytes, v: Bytes)
    requires InUse(cx, r) && r.matchType == Keyword && !r.all && FinalURL in r.targets && kw in Trimmed(r.keywords)
    requires cx.fetcher.urls(u) && cx.fetcher.urls(v) && InUrl(cx.lib, r, kw, u)
    requires forall k :: k in Trimmed(r.keywords) ==> !InUrl(cx.lib, r, k, v)
    ensures !HashDecides(cx, r)
  {
    KeywordInUrl(cx.lib, r, Page(cx.fetcher, [], u, 200), kw);
    NoKeywordInUrl(cx.lib, r, Page(cx.fetcher, [], v, 200));
    assert UrlTells(cx, r, [], u, v);
    DecidedIff(cx, r);
  }

  // ---------- two rules on final URLs ----------

  /** https://a.io/ and https://a.io/win */
  const HOME: Bytes := [0x68, 0x74, 0x74, 0x70, 0x73, 0x3A, 0x2F, 0x2F, 0x61, 0x2E, 0x69, 0x6F, 0x2F]
  const WIN: Bytes := [0x77, 0x69, 0x6E]

  predicate OneUrlKeyword(r: Rule, kw: Bytes) {
    r.matchType == Keyword && !r.all && r.caseSensitive && r.targets == [FinalURL] && Trimmed(r.keywords) == [kw]
  }

  lemma FirstByteOccurs(text: Bytes, kw: Bytes)
    requires kw != [] && Occurs(text, kw)
    ensures kw[0] in text
  {
    var i: nat :| i <= |text| && OccursAt(text, kw, i);
    assert text[i..i + |kw|][0] == text[i];
  }

  /** The keyword "win" is not decided: a redirect to /win with the body unchanged goes unnoticed. */
  lemma RedirectGoesUnnoticed(cx: Context, r: Rule)
    requires InUse(cx, r) && OneUrlKeyword(r, WIN) && cx.fetcher.urls(HOME) && cx.fetcher.urls(HOME + WIN)
    ensures !HashDecides(cx, r)
  {
    assert !Occurs(HOME, WIN) by {
      if Occurs(HOME, WIN) { FirstByteOccurs(HOME, WIN); }
    }
    assert HOME + WIN == HOME + WIN + [];
    OccursInMiddle(HOME, WIN, []);
    KeywordOfSomeUrls(cx, r, WIN, HOME + WIN, HOME);
  }

  /** The keyword "http" is: every URL begins with it. */
  lemma SchemeIsDecided(cx: Context, r: Rule)
    requires OneUrlKeyword(r, HTTP) && forall u :: cx.fetcher.urls(u) ==> |u| > 4 && u[..4] == HTTP
    ensures HashDecides(cx, r)
  {
    forall u | cx.fetcher.urls(u) ensures InUrl(cx.lib, r, HTTP, u) { assert OccursAt(Cut(u), HTTP, 0); }
    KeywordOfEveryUrl(cx, r, HTTP);
  }
}
