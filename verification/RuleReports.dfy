/** What is stored of a keyword hit still shows the keyword. */
module RuleReports {
  import opened ByteStrings
  import opened Utf8
  import opened Snippets
  import opened Fetching
  import opened RuleEngine

  // ---------- foldings ----------

  /** What matching relies on beside lengths: an occurrence of a folded keyword in a folded text is a valid text that
      folds to the same, and folding goes text by text. */
  ghost predicate RuneWise(fold: Folding) {
    && LengthPreserving(fold)
    && (forall text, kw, at: nat :: Valid(kw) && OccursAt(fold(text), fold(kw), at) ==> MatchedAt(text, at, kw, fold))
    && (forall a, b :: Valid(a) && Valid(b) ==> fold(a + b) == fold(a) + fold(b))
  }

  predicate MatchedAt(text: Bytes, at: nat, kw: Bytes, fold: Folding) {
    at + |kw| <= |text| && Valid(text[at..at + |kw|]) && fold(text[at..at + |kw|]) == fold(kw)
  }

  function Lower(b: byte): byte { if 0x41 <= b <= 0x5A then b + 0x20 else b }

  /** Lower-casing of ASCII letters. */
  function AsciiLower(s: Bytes): (r: Bytes)
    ensures |r| == |s|
    ensures forall i :: 0 <= i < |s| ==> r[i] == Lower(s[i])
  {
    seq(|s|, i requires 0 <= i < |s| => Lower(s[i]))
  }

  lemma LowerKeepsGood(s: Bytes)
    requires s != []
    ensures Good(AsciiLower(s)) <==> Good(s)
    ensures Width(AsciiLower(s)) == Width(s)
  {
  }

  lemma {:induction false} LowerKeepsValid(s: Bytes)
    ensures Valid(AsciiLower(s)) <==> Valid(s)
    decreases |s|
  {
    if s != [] {
      LowerKeepsGood(s);
      var n := Width(s);
      assert AsciiLower(s)[n..] == AsciiLower(s[n..]);
      LowerKeepsValid(s[n..]);
    }
  }

  lemma LowerOfSlice(text: Bytes, at: nat, n: nat)
    requires at + n <= |text|
    ensures AsciiLower(text[at..at + n]) == AsciiLower(text)[at..at + n]
  {
  }

  lemma LowerDecidesValid(found: Bytes, kw: Bytes)
    requires Valid(kw) && AsciiLower(found) == AsciiLower(kw)
    ensures Valid(found)
  {
    LowerKeepsValid(kw);
    LowerKeepsValid(found);
  }

  lemma LowerMatches(text: Bytes, kw: Bytes, at: nat)
    requires Valid(kw) && OccursAt(AsciiLower(text), AsciiLower(kw), at)
    ensures MatchedAt(text, at, kw, AsciiLower)
  {
    LowerOfSlice(text, at, |kw|);
    LowerDecidesValid(text[at..at + |kw|], kw);
  }

  lemma AsciiIsRuneWise()
    ensures RuneWise(AsciiLower)
  {
    forall text, kw, at: nat | Valid(kw) && OccursAt(AsciiLower(text), AsciiLower(kw), at)
      ensures MatchedAt(text, at, kw, AsciiLower)
    {
      LowerMatches(text, kw, at);
    }
    forall a: Bytes, b: Bytes ensures AsciiLower(a + b) == AsciiLower(a) + AsciiLower(b) { }
  }

  /** A case-sensitive rule folds nothing, so only the other rules depend on the library. */
  lemma FoldOfIsRuneWise(lib: Library, r: Rule)
    requires RuneWise(lib.lower)
    ensures RuneWise(FoldOf(lib, r))
  {
  }

  /** The stored text contains the keyword, up to folding. */
  ghost predicate Shows(stored: Bytes, kw: Bytes, fold: Folding) {
    exists found :: Occurs(stored, found) && fold(found) == fold(kw)
  }

  /** The snippet is taken around an occurrence of the keyword. */
  ghost predicate Around(snippet: Bytes, kw: Bytes, fold: Folding) {
    exists text, at: nat :: MatchedAt(text, at, kw, fold) && snippet == SnippetOf(text, at, |kw|)
  }

  lemma FoundIsMatched(text: Bytes, kw: Bytes, fold: Folding)
    requires RuneWise(fold) && Valid(kw) && FindKeyword(text, kw, fold) >= 0
    ensures MatchedAt(text, FindKeyword(text, kw, fold), kw, fold)
  {
    assert OccursAt(fold(text), fold(kw), FindKeyword(text, kw, fold));
  }

  // ---------- one hit ----------

  /** The channels' schemes, http and https, have at most five bytes. */
  lemma SchemePrefix(scheme: Bytes)
    requires Valid(scheme) && |scheme| <= 5
    ensures Valid(Bracketed(scheme)) && |Bracketed(scheme)| <= 8
  {
    ValidConcat([0x5B as byte], scheme);
    ValidConcat([0x5B as byte] + scheme, [0x5D as byte, 0x20]);
  }

  lemma PrefixedHolds(scheme: Bytes, text: Bytes, at: nat, found: Bytes)
    requires Valid(scheme) && |scheme| <= 5
    requires OccursAt(text, found, at) && 0 < |found| <= 128 && Valid(found)
    ensures Occurs(Prefixed(scheme, SnippetOf(text, at, |found|)), found)
  {
    SchemePrefix(scheme);
    StoredSnippetHoldsMatch(Bracketed(scheme), text, at, found);
  }

  lemma PrefixedShowsAt(scheme: Bytes, text: Bytes, at: nat, kw: Bytes, fold: Folding, found: Bytes)
    requires Valid(scheme) && |scheme| <= 5
    requires OccursAt(text, found, at) && Valid(found) && 0 < |found| <= 128
    requires fold(found) == fold(kw)
    ensures Shows(Prefixed(scheme, SnippetOf(text, at, |found|)), kw, fold)
  {
    PrefixedHolds(scheme, text, at, found);
  }

  lemma PrefixedShows(scheme: Bytes, snippet: Bytes, kw: Bytes, fold: Folding)
    requires Valid(scheme) && |scheme| <= 5
    requires Around(snippet, kw, fold) && Valid(kw) && 0 < |kw| <= 128
    ensures Shows(Prefixed(scheme, snippet), kw, fold)
  {
    var text, at: nat :| MatchedAt(text, at, kw, fold) && snippet == SnippetOf(text, at, |kw|);
    PrefixedShowsAt(scheme, text, at, kw, fold, text[at..at + |kw|]);
  }

  lemma SnippetIsNotEmpty(snippet: Bytes, kw: Bytes, fold: Folding)
    requires Around(snippet, kw, fold) && Valid(kw) && kw != []
    ensures snippet != []
  {
    var text, at: nat :| MatchedAt(text, at, kw, fold) && snippet == SnippetOf(text, at, |kw|);
    var left, right := SnippetHoldsMatch(text, at, text[at..at + |kw|], 50, 100);
  }

  // ---------- one rule ----------

  lemma {:induction false} FirstKeywordAround(text: Bytes, keywords: seq<Bytes>, fold: Folding) returns (kw: Bytes)
    requires FirstKeyword(text, keywords, fold).Found? && RuneWise(fold) && forall k :: k in keywords ==> Valid(k)
    ensures kw in keywords && Around(FirstKeyword(text, keywords, fold).snippet, kw, fold)
  {
    if KeywordOccurs(text, keywords[0], fold) {
      kw := keywords[0];
      FoundIsMatched(text, kw, fold);
    } else {
      kw := FirstKeywordAround(text, keywords[1..], fold);
    }
  }

  lemma {:induction false} KeywordAnyAround(targets: seq<Target>, f: Fetch, keywords: seq<Bytes>, fold: Folding)
    returns (kw: Bytes)
    requires KeywordAny(targets, f, keywords, fold).Found? && RuneWise(fold) && forall k :: k in keywords ==> Valid(k)
    ensures kw in keywords && Around(KeywordAny(targets, f, keywords, fold).snippet, kw, fold)
  {
    var text := GetTarget(targets[0], f);
    if text != [] && FirstKeyword(Cut(text), keywords, fold) != Missed {
      kw := FirstKeywordAround(Cut(text), keywords, fold);
    } else {
      kw := KeywordAnyAround(targets[1..], f, keywords, fold);
    }
  }

  lemma {:induction false} FindInAround(texts: seq<Bytes>, kw: Bytes, fold: Folding)
    requires FindIn(texts, kw, fold).Found? && RuneWise(fold) && Valid(kw)
    ensures Around(FindIn(texts, kw, fold).snippet, kw, fold)
  {
    if KeywordOccurs(texts[0], kw, fold) {
      FoundIsMatched(texts[0], kw, fold);
    } else {
      FindInAround(texts[1..], kw, fold);
    }
  }

  lemma {:induction false} FirstSnippetStays(texts: seq<Bytes>, keywords: seq<Bytes>, fold: Folding, first: Bytes)
    requires first != [] && KeywordAll(texts, keywords, fold, first).Found?
    ensures KeywordAll(texts, keywords, fold, first) == Found(first)
  {
    if keywords != [] { FirstSnippetStays(texts, keywords[1..], fold, first); }
  }

  lemma {:induction false} TrimmedAreValid(keywords: seq<Bytes>)
    ensures forall kw :: kw in Trimmed(keywords) ==> Valid(kw) && kw != []
  {
    if keywords != [] {
      TrimmedAreValid(keywords[..|keywords| - 1]);
      var s := keywords[|keywords| - 1];
      RunesAreRunes(s);
      TrimLeftIsPart(Runes(s));
      TrimRightIsPart(TrimLeft(Runes(s)));
      RunesOfEncode(TrimRight(TrimLeft(Runes(s))));
    }
  }

  lemma {:induction false} TrimLeftIsPart(us: seq<Bytes>)
    ensures forall u :: u in TrimLeft(us) ==> u in us
  {
    if us != [] { TrimLeftIsPart(us[1..]); }
  }

  lemma {:induction false} TrimRightIsPart(us: seq<Bytes>)
    ensures forall u :: u in TrimRight(us) ==> u in us
  {
    if us != [] { TrimRightIsPart(us[..|us| - 1]); }
  }

  /** The limits that ValidateAuditRule sets. */
  predicate KeywordsInLimits(r: Rule) {
    forall kw :: kw in Trimmed(r.keywords) ==> |kw| <= 128
  }

  /** What is stored of a keyword rule's hit shows a whole keyword of the rule, its first if all are required. */
  lemma StoredSnippetShowsKeyword(lib: Library, r: Rule, f: Fetch, scheme: Bytes) returns (kw: Bytes)
    requires RuneWise(lib.lower) && KeywordsInLimits(r) && MatchKeywords(lib, r, f).Found?
    requires Valid(scheme) && |scheme| <= 5
    ensures kw in Trimmed(r.keywords) && (r.all ==> kw == Trimmed(r.keywords)[0])
    ensures Shows(Prefixed(scheme, MatchKeywords(lib, r, f).snippet), kw, FoldOf(lib, r))
  {
    var kws, fold, texts := Trimmed(r.keywords), FoldOf(lib, r), Texts(r.targets, f);
    TrimmedAreValid(r.keywords);
    FoldOfIsRuneWise(lib, r);
    if r.all {
      kw := kws[0];
      FindInAround(texts, kw, fold);
      SnippetIsNotEmpty(FindIn(texts, kw, fold).snippet, kw, fold);
      FirstSnippetStays(texts, kws[1..], fold, FindIn(texts, kw, fold).snippet);
    } else {
      kw := KeywordAnyAround(r.targets, f, kws, fold);
    }
    PrefixedShows(scheme, MatchKeywords(lib, r, f).snippet, kw, fold);
  }
}
