/** The list of user groups of the daily check-in setting: a comma-separated text and a list of identifiers
    (server/internal/handler/daily_checkin_config.go). */
module GroupIds {
  import opened Wrappers
  import opened Strings

  const UINT64_MAX: nat := 0xFFFF_FFFF_FFFF_FFFF

  predicate Increasing(ids: seq<nat>) { forall i, j :: 0 <= i < j < |ids| ==> ids[i] < ids[j] }

  predicate GroupIdList(ids: seq<nat>) { forall i :: 0 <= i < |ids| ==> 1 <= ids[i] <= UINT64_MAX }

  // ---------- the canonical list: ascending, without duplicates ----------

  function Insert(x: nat, ids: seq<nat>): (r: seq<nat>)
    requires Increasing(ids)
    ensures Increasing(r)
    ensures forall v :: v in r <==> v == x || v in ids
  {
    if ids == [] || x < ids[0] then
      assert forall v :: v in [x] + ids <==> v == x || v in ids;
      [x] + ids
    else if x == ids[0] then ids
    else
      var rest := Insert(x, ids[1..]);
      InsertedLater(x, ids, rest);
      [ids[0]] + rest
  }

  lemma InsertedLater(x: nat, ids: seq<nat>, rest: seq<nat>)
    requires Increasing(ids) && ids != [] && ids[0] < x
    requires Increasing(rest) && forall v :: v in rest <==> v == x || v in ids[1..]
    ensures Increasing([ids[0]] + rest)
    ensures forall v :: v in [ids[0]] + rest <==> v == x || v in ids
  {
    assert forall v :: v in ids <==> v == ids[0] || v in ids[1..];
    forall j | 0 <= j < |rest| ensures ids[0] < rest[j] { assert rest[j] in rest; }
  }

  function Canonical(ids: seq<nat>): (r: seq<nat>)
    ensures Increasing(r)
    ensures forall v :: v in r <==> v in ids
  {
    if ids == [] then [] else Insert(ids[0], Canonical(ids[1..]))
  }

  lemma BothEmpty(a: seq<nat>, b: seq<nat>)
    requires forall v :: v in a <==> v in b
    ensures a == [] <==> b == []
  {
    if a != [] { assert a[0] in b; }
    if b != [] { assert b[0] in a; }
  }

  /** An ascending list is determined by its elements. */
  lemma {:induction false} IncreasingUnique(a: seq<nat>, b: seq<nat>)
    requires Increasing(a) && Increasing(b)
    requires forall v :: v in a <==> v in b
    ensures a == b
  {
    BothEmpty(a, b);
    if a != [] {
      assert a[0] in b && b[0] in a;
      assert a[0] == b[0];
      forall v ensures v in a[1..] <==> v in b[1..] {
        assert v in a <==> v == a[0] || v in a[1..];
        assert v in b <==> v == b[0] || v in b[1..];
      }
      IncreasingUnique(a[1..], b[1..]);
    }
  }

  // ---------- sort.Slice ----------

  predicate Sorted(ids: seq<nat>) { forall i, j :: 0 <= i < j < |ids| ==> ids[i] <= ids[j] }

  predicate Distinct(ids: seq<nat>) { forall i, j :: 0 <= i < j < |ids| ==> ids[i] != ids[j] }

  lemma MembersInFront(x: nat, ids: seq<nat>)
    ensures forall v :: v in [x] + ids <==> v == x || v in ids
    ensures Distinct(ids) && x !in ids ==> Distinct([x] + ids)
  {
  }

  lemma SortedInFront(x: nat, ids: seq<nat>)
    requires Sorted(ids) && forall v :: v in ids ==> x <= v
    ensures Sorted([x] + ids)
  {
    forall j | 0 <= j < |ids| ensures x <= ids[j] { assert ids[j] in ids; }
  }

  lemma LeastInFront(ids: seq<nat>)
    requires Sorted(ids) && ids != []
    ensures forall v :: v in ids ==> ids[0] <= v
  {
  }

  function SortInsert(x: nat, ids: seq<nat>): (r: seq<nat>)
    requires Sorted(ids)
    ensures Sorted(r) && |r| == |ids| + 1
    ensures forall v :: v in r <==> v == x || v in ids
    ensures Distinct(ids) && x !in ids ==> Distinct(r)
  {
    if ids == [] || x <= ids[0] then
      assert forall v :: v in ids ==> x <= v by { if ids != [] { LeastInFront(ids); } }
      MembersInFront(x, ids);
      SortedInFront(x, ids);
      [x] + ids
    else
      var rest := SortInsert(x, ids[1..]);
      LeastInFront(ids);
      assert ids == [ids[0]] + ids[1..];
      MembersInFront(ids[0], ids[1..]);
      MembersInFront(ids[0], rest);
      SortedInFront(ids[0], rest);
      [ids[0]] + rest
  }

  function Sort(ids: seq<nat>): (r: seq<nat>)
    ensures Sorted(r) && |r| == |ids|
    ensures forall v :: v in r <==> v in ids
    ensures Distinct(ids) ==> Increasing(r)
  {
    if ids == [] then []
    else
      assert forall v :: v in ids <==> v == ids[0] || v in ids[1..];
      SortInsert(ids[0], Sort(ids[1..]))
  }

  // ---------- parsing ----------

  function Each(f: string -> string, parts: seq<string>): seq<string> {
    seq(|parts|, i requires 0 <= i < |parts| => f(parts[i]))
  }

  function Trimmed(parts: seq<string>): seq<string> { Each(TrimSpace, parts) }

  /** The identifier a token stands for: decimal, 64 bits, not zero. */
  function TokenId(token: string): Option<nat> {
    match ParseUint(token, UINT64_MAX)
    case None => None
    case Some(n) => if n == 0 then None else Some(n)
  }

  /** `found` and then the identifiers of the tokens, blank tokens skipped; None if some token is not an identifier. */
  function TokenIds(tokens: seq<string>, found: seq<nat>): Option<seq<nat>> {
    if tokens == [] then Some(found)
    else if tokens[0] == "" then TokenIds(tokens[1..], found)
    else match TokenId(tokens[0])
      case None => None
      case Some(n) => TokenIds(tokens[1..], found + [n])
  }

  function Parse(raw: string): Option<seq<nat>> { ReadTokens(Trimmed(Split(TrimSpace(raw), ','))) }

  function ReadTokens(tokens: seq<string>): Option<seq<nat>> {
    match TokenIds(tokens, [])
    case None => None
    case Some(ids) => Some(Canonical(ids))
  }

  lemma BlankIsEmpty(raw: string)
    requires TrimSpace(raw) == ""
    ensures Parse(raw) == Some([])
  {
    var tokens := Trimmed(Split("", ','));
    assert TrimSpace("") == "" && Split("", ',') == [""];
    assert tokens == [""] && tokens[1..] == [];
    assert TokenIds([], []) == Some([]) && TokenIds(tokens, []) == Some([]) && Canonical([]) == [];
  }

  method ParseGroupIds(raw: string) returns (r: Option<seq<nat>>)
    ensures r == Parse(raw)
  {
    var trimmed := TrimSpace(raw);
    ghost var tokens := Trimmed(Split(trimmed, ','));
    if trimmed == "" {
      BlankIsEmpty(raw);
      return Some([]);
    }
    var parts := Split(trimmed, ',');
    var seen: set<nat> := {};
    var ids: seq<nat> := [];
    ghost var found: seq<nat> := [];
    for i := 0 to |parts|
      invariant TokenIds(tokens[i..], found) == TokenIds(tokens, [])
      invariant forall v :: v in seen <==> v in ids
      invariant forall v :: v in ids <==> v in found
      invariant Distinct(ids)
    {
      var token := TrimSpace(parts[i]);
      assert tokens[i..][1..] == tokens[i + 1..];
      if token == "" { continue; }
      var parsed := ParseUint(token, UINT64_MAX);
      if parsed.None? || parsed.value == 0 { return None; }
      found := found + [parsed.value];
      if parsed.value in seen { continue; }
      seen := seen + {parsed.value};
      ids := ids + [parsed.value];
    }
    var sorted := Sort(ids);
    IncreasingUnique(sorted, Canonical(found));
    assert TokenIds(tokens, []) == Some(found);
    r := Some(sorted);
  }

  // ---------- blanks and empty tokens ----------

  /** Splitting a padded text pads its first and its last part. */
  lemma {:induction false} SplitOfLeftPadded(pad: string, text: string)
    requires ',' !in pad
    ensures var (a, b) := (Split(pad + text, ','), Split(text, ','));
            |a| == |b| && a[0] == pad + b[0] && a[1..] == b[1..]
  {
    if pad == "" {
      assert pad + text == text;
    } else {
      assert (pad + text)[1..] == pad[1..] + text;
      SplitOfLeftPadded(pad[1..], text);
      assert [pad[0]] + (pad[1..] + Split(text, ',')[0]) == pad + Split(text, ',')[0];
    }
  }

  lemma {:induction false} SplitOfRightPadded(text: string, pad: string)
    requires ',' !in pad
    ensures var (a, b) := (Split(text + pad, ','), Split(text, ','));
            |a| == |b| && a[|a| - 1] == b[|b| - 1] + pad && a[..|a| - 1] == b[..|b| - 1]
  {
    if text == "" {
      assert text + pad == pad;
      SplitNone(pad, ',');
      assert [] + pad == pad;
    } else {
      assert (text + pad)[1..] == text[1..] + pad && (text + pad)[0] == text[0];
      SplitOfRightPadded(text[1..], pad);
      LastPart(text[0], Split(text[1..] + pad, ','), Split(text[1..], ','), pad);
    }
  }

  lemma LastPart(c: char, a: seq<string>, b: seq<string>, pad: string)
    requires |a| == |b| > 0 && a[|a| - 1] == b[|b| - 1] + pad && a[..|a| - 1] == b[..|b| - 1]
    ensures var (a2, b2) := (if c == ',' then [[]] + a else [[c] + a[0]] + a[1..], if c == ',' then [[]] + b else [[c] + b[0]] + b[1..]);
            |a2| == |b2| && a2[|a2| - 1] == b2[|b2| - 1] + pad && a2[..|a2| - 1] == b2[..|b2| - 1]
  {
    if |a| == 1 {
      assert [c] + (b[0] + pad) == [c] + b[0] + pad;
    } else {
      assert a[0] == a[..|a| - 1][0] == b[..|b| - 1][0] == b[0];
      forall i | 0 <= i < |a| - 1 ensures a[i] == b[i] { assert a[..|a| - 1][i] == b[..|b| - 1][i]; }
    }
  }

  lemma SpacesAreNoCommas(pad: string)
    requires AllSpace(pad)
    ensures ',' !in pad
  {
    assert !IsSpace(',');
  }

  lemma SameFirst(f: string -> string, a: seq<string>, b: seq<string>)
    requires |a| == |b| > 0 && f(a[0]) == f(b[0]) && a[1..] == b[1..]
    ensures Each(f, a) == Each(f, b)
  {
    forall i | 0 < i < |a| ensures a[i] == b[i] { assert a[1..][i - 1] == b[1..][i - 1]; }
  }

  lemma SameLast(f: string -> string, a: seq<string>, b: seq<string>)
    requires |a| == |b| > 0 && f(a[|a| - 1]) == f(b[|b| - 1]) && a[..|a| - 1] == b[..|b| - 1]
    ensures Each(f, a) == Each(f, b)
  {
    var n := |a| - 1;
    forall i | 0 <= i < n ensures a[i] == b[i] { assert a[..n][i] == b[..n][i]; }
  }

  lemma LeftPaddingDoesNotMatter(pad: string, text: string)
    requires AllSpace(pad)
    ensures Trimmed(Split(pad + text, ',')) == Trimmed(Split(text, ','))
  {
    var first := Split(text, ',')[0];
    SpacesAreNoCommas(pad);
    SplitOfLeftPadded(pad, text);
    assert pad + first + "" == pad + first;
    TrimOfPadded(pad, first, "");
    SameFirst(TrimSpace, Split(pad + text, ','), Split(text, ','));
  }

  lemma RightPaddingDoesNotMatter(text: string, pad: string)
    requires AllSpace(pad)
    ensures Trimmed(Split(text + pad, ',')) == Trimmed(Split(text, ','))
  {
    var a, b := Split(text + pad, ','), Split(text, ',');
    SpacesAreNoCommas(pad);
    SplitOfRightPadded(text, pad);
    RightTrim(b[|b| - 1], pad);
    SameLast(TrimSpace, a, b);
  }

  lemma RightTrim(text: string, pad: string)
    requires AllSpace(pad)
    ensures TrimSpace(text + pad) == TrimSpace(text)
  {
    assert "" + text + pad == text + pad;
    TrimOfPadded("", text, pad);
  }

  /** Trimming the whole text first makes no difference to the trimmed tokens. */
  lemma OuterTrimDoesNotMatter(raw: string)
    ensures Trimmed(Split(TrimSpace(raw), ',')) == Trimmed(Split(raw, ','))
  {
    var left, right := TrimSplits(raw);
    LeftPaddingDoesNotMatter(left, TrimSpace(raw));
    RightPaddingDoesNotMatter(left + TrimSpace(raw), right);
  }

  lemma SameEach(f: string -> string, a: seq<string>, b: seq<string>)
    requires |a| == |b| && forall i :: 0 <= i < |a| ==> f(a[i]) == f(b[i])
    ensures Each(f, a) == Each(f, b)
  {
  }

  lemma ParseOfTokens(parts: seq<string>)
    requires parts != [] && forall p :: p in parts ==> ',' !in p
    ensures Parse(Join(parts, ',')) == ReadTokens(Trimmed(parts))
  {
    SplitJoin(parts, ',');
    OuterTrimDoesNotMatter(Join(parts, ','));
  }

  /** White space around tokens does not matter: tokens that are the same when trimmed are read the same. */
  lemma BlanksDoNotMatter(tokens: seq<string>, padded: seq<string>)
    requires tokens != [] && |padded| == |tokens|
    requires forall i :: 0 <= i < |tokens| ==> ',' !in tokens[i] && ',' !in padded[i] && TrimSpace(padded[i]) == TrimSpace(tokens[i])
    ensures Parse(Join(padded, ',')) == Parse(Join(tokens, ','))
  {
    ParseOfTokens(tokens);
    ParseOfTokens(padded);
    SameEach(TrimSpace, padded, tokens);
  }

  lemma {:induction false} SkipBlank(a: seq<string>, b: seq<string>, found: seq<nat>)
    ensures TokenIds(a + [""] + b, found) == TokenIds(a + b, found)
  {
    if a == [] {
      assert a + [""] + b == [""] + b && ([""] + b)[1..] == b && a + b == b;
    } else {
      assert (a + [""] + b)[0] == a[0] == (a + b)[0];
      assert (a + [""] + b)[1..] == a[1..] + [""] + b && (a + b)[1..] == a[1..] + b;
      SkipBlank(a[1..], b, found);
      match TokenId(a[0])
      case None =>
      case Some(n) => SkipBlank(a[1..], b, found + [n]);
    }
  }

  /** Nor do empty or blank tokens, wherever they stand. */
  lemma EmptyTokensDoNotMatter(a: seq<string>, blank: string, b: seq<string>)
    requires AllSpace(blank) && a + b != []
    requires forall p :: p in a + b ==> ',' !in p
    ensures Parse(Join(a + [blank] + b, ',')) == Parse(Join(a + b, ','))
  {
    var all := a + [blank] + b;
    SpacesAreNoCommas(blank);
    forall p | p in all ensures ',' !in p { assert p in a || p == blank || p in b; }
    ParseOfTokens(all);
    ParseOfTokens(a + b);
    AllSpaceMeans(blank);
    EachConcat(TrimSpace, a, blank, b);
    SkipBlank(Trimmed(a), Trimmed(b), []);
  }

  lemma EachConcat(f: string -> string, a: seq<string>, p: string, b: seq<string>)
    ensures Each(f, a + [p] + b) == Each(f, a) + [f(p)] + Each(f, b)
    ensures Each(f, a + b) == Each(f, a) + Each(f, b)
  {
  }

  /** A list is refused if and only if some token is neither blank nor a decimal number from 1 to 2^64 - 1; otherwise it
      stands for exactly those numbers. */
  lemma {:induction false} TokensReadIff(tokens: seq<string>, found: seq<nat>)
    ensures TokenIds(tokens, found).Some? <==> forall t :: t in tokens ==> t == "" || TokenId(t).Some?
    ensures TokenIds(tokens, found).Some? ==> forall v ::
              (v in TokenIds(tokens, found).value <==> v in found || exists t :: t in tokens && t != "" && TokenId(t) == Some(v))
    decreases |tokens|
  {
    if tokens != [] {
      var t := tokens[0];
      assert forall u :: u in tokens <==> u == t || u in tokens[1..];
      if t == "" {
        TokensReadIff(tokens[1..], found);
      } else if TokenId(t).Some? {
        TokensReadIff(tokens[1..], found + [TokenId(t).value]);
      }
    }
  }

  // ---------- printing ----------

  function Numerals(ids: seq<nat>): seq<string> { seq(|ids|, i requires 0 <= i < |ids| => FormatUint(ids[i])) }

  function Format(ids: seq<nat>): string { Join(Numerals(Canonical(ids)), ',') }

  ghost predicate SameElements(a: seq<nat>, b: seq<nat>) { forall v :: v in a <==> v in b }

  lemma AppendLarger(kept: seq<nat>, read: seq<nat>, id: nat)
    requires Increasing(kept) && SameElements(kept, read)
    requires kept == [] || kept[|kept| - 1] < id
    ensures Increasing(kept + [id]) && SameElements(kept + [id], read + [id])
    ensures Numerals(kept + [id]) == Numerals(kept) + [FormatUint(id)]
  {
  }

  lemma ReadAgain(kept: seq<nat>, read: seq<nat>, id: nat)
    requires SameElements(kept, read) && kept != [] && kept[|kept| - 1] == id
    ensures SameElements(kept, read + [id])
  {
    assert kept[|kept| - 1] in kept;
  }

  method FormatGroupIds(ids: seq<nat>) returns (text: string)
    ensures text == Format(ids)
  {
    if |ids| == 0 { return ""; }
    var normalized := Sort(ids);
    var parts: seq<string> := [];
    var prev := 0;
    ghost var kept: seq<nat> := [];
    for idx := 0 to |normalized|
      invariant idx > 0 ==> prev == normalized[idx - 1] && kept != [] && kept[|kept| - 1] == prev
      invariant idx == 0 ==> kept == []
      invariant Increasing(kept) && parts == Numerals(kept)
      invariant SameElements(kept, normalized[..idx])
    {
      var id := normalized[idx];
      assert normalized[..idx + 1] == normalized[..idx] + [id];
      if idx > 0 && id == prev {
        ReadAgain(kept, normalized[..idx], id);
        continue;
      }
      AppendLarger(kept, normalized[..idx], id);
      parts := parts + [FormatUint(id)];
      kept := kept + [id];
      prev := id;
    }
    assert normalized[..|normalized|] == normalized;
    IncreasingUnique(kept, Canonical(ids));
    text := Join(parts, ',');
  }

  // ---------- round trips ----------

  lemma NumeralToken(n: nat)
    requires 1 <= n <= UINT64_MAX
    ensures TrimSpace(FormatUint(n)) == FormatUint(n) && ',' !in FormatUint(n)
    ensures TokenId(FormatUint(n)) == Some(n)
  {
    var s := FormatUint(n);
    assert IsDigit(s[0]) && IsDigit(s[|s| - 1]);
    TrimNothing(s, IsSpace);
    assert ',' !in s by { assert !IsDigit(','); }
    assert ParseUint(s, UINT64_MAX) == Some(n);
  }

  /** The printed numbers that are identifiers are those from 1 to 2^64 - 1. */
  lemma NumeralIsIdIff(n: nat)
    ensures TokenId(FormatUint(n)) == if 1 <= n < 0x1_0000_0000_0000_0000 then Some(n) else None
  {
    assert ParseUint(FormatUint(n), UINT64_MAX) == if n <= UINT64_MAX then Some(n) else None;
  }

  /** Tokens that stand for identifiers one by one stand for the list. */
  lemma {:induction false} TokenIdsEach(tokens: seq<string>, ids: seq<nat>, found: seq<nat>)
    requires |tokens| == |ids|
    requires forall i :: 0 <= i < |ids| ==> tokens[i] != "" && TokenId(tokens[i]) == Some(ids[i])
    ensures TokenIds(tokens, found) == Some(found + ids)
  {
    if ids == [] {
      assert found + ids == found;
    } else {
      TokenIdsEach(tokens[1..], ids[1..], found + [ids[0]]);
      assert found + [ids[0]] + ids[1..] == found + ids;
    }
  }

  lemma {:induction false} JoinedNumeralsEnds(ids: seq<nat>)
    requires GroupIdList(ids) && ids != []
    ensures var s := Join(Numerals(ids), ','); s != [] && IsDigit(s[0]) && IsDigit(s[|s| - 1])
  {
    var parts := Numerals(ids);
    assert IsDigit(parts[0][0]) && IsDigit(parts[0][|parts[0]| - 1]);
    if |ids| > 1 {
      JoinedNumeralsEnds(ids[1..]);
      assert parts[1..] == Numerals(ids[1..]);
    }
  }

  lemma IncreasingIsCanonical(ids: seq<nat>)
    requires Increasing(ids)
    ensures Canonical(ids) == ids
  {
    IncreasingUnique(Canonical(ids), ids);
  }

  lemma NumeralParts(ids: seq<nat>)
    requires GroupIdList(ids)
    ensures forall p :: p in Numerals(ids) ==> ',' !in p
    ensures Trimmed(Numerals(ids)) == Numerals(ids)
    ensures TokenIds(Numerals(ids), []) == Some(ids)
  {
    forall i | 0 <= i < |ids|
      ensures ',' !in Numerals(ids)[i] && TrimSpace(Numerals(ids)[i]) == Numerals(ids)[i]
    {
      NumeralToken(ids[i]);
    }
    EachStays(TrimSpace, Numerals(ids));
    NumeralIds(ids);
  }

  lemma EachStays(f: string -> string, parts: seq<string>)
    requires forall i :: 0 <= i < |parts| ==> f(parts[i]) == parts[i]
    ensures Each(f, parts) == parts
  {
  }

  lemma NumeralIds(ids: seq<nat>)
    requires GroupIdList(ids)
    ensures TokenIds(Numerals(ids), []) == Some(ids)
  {
    forall i | 0 <= i < |ids| ensures Numerals(ids)[i] != "" && TokenId(Numerals(ids)[i]) == Some(ids[i]) {
      NumeralToken(ids[i]);
    }
    TokenIdsEach(Numerals(ids), ids, []);
    assert [] + ids == ids;
  }

  /** A canonical list of identifiers survives printing and parsing. */
  lemma ParseOfJoined(ids: seq<nat>)
    requires GroupIdList(ids) && Increasing(ids)
    ensures Parse(Join(Numerals(ids), ',')) == Some(ids)
  {
    var text := Join(Numerals(ids), ',');
    if ids == [] {
      assert Split(text, ',') == [""];
      assert TrimSpace("") == "";
      assert Trimmed([""]) == [""];
      assert [""][1..] == [] && TokenIds([""], []) == Some([]);
    } else {
      JoinedNumeralsEnds(ids);
      TrimNothing(text, IsSpace);
      NumeralParts(ids);
      SplitJoin(Numerals(ids), ',');
      IncreasingIsCanonical(ids);
    }
  }

  /** Printing any list of identifiers and parsing the text gives the ascending list of the same identifiers. */
  lemma ParseFormat(ids: seq<nat>)
    requires GroupIdList(ids)
    ensures Parse(Format(ids)) == Some(Canonical(ids))
  {
    forall i | 0 <= i < |Canonical(ids)| ensures 1 <= Canonical(ids)[i] <= UINT64_MAX {
      assert Canonical(ids)[i] in ids;
    }
    ParseOfJoined(Canonical(ids));
  }

  lemma {:induction false} TokenIdsAreGroupIds(tokens: seq<string>, found: seq<nat>)
    requires GroupIdList(found) && TokenIds(tokens, found).Some?
    ensures GroupIdList(TokenIds(tokens, found).value)
  {
    if tokens != [] {
      TokenIdsAreGroupIds(tokens[1..], if tokens[0] == "" then found else found + [TokenId(tokens[0]).value]);
    }
  }

  /** Whatever parses is an ascending list of identifiers, printing it is a fixed point of parsing and printing,
      and two texts print alike exactly when they hold the same identifiers. */
  lemma FormatOfParsedIsNormalForm(raw: string, other: string)
    requires Parse(raw).Some? && Parse(other).Some?
    ensures GroupIdList(Parse(raw).value) && Increasing(Parse(raw).value)
    ensures Parse(Format(Parse(raw).value)) == Parse(raw)
    ensures Format(Parse(Format(Parse(raw).value)).value) == Format(Parse(raw).value)
    ensures Format(Parse(raw).value) == Format(Parse(other).value) <==> Parse(raw) == Parse(other)
  {
    ParsedIsList(raw);
    ParsedIsList(other);
    IncreasingIsCanonical(Parse(raw).value);
    IncreasingIsCanonical(Parse(other).value);
    ParseFormat(Parse(raw).value);
    ParseFormat(Parse(other).value);
  }

  lemma ParsedIsList(raw: string)
    requires Parse(raw).Some?
    ensures GroupIdList(Parse(raw).value) && Increasing(Parse(raw).value)
  {
    var tokens := Trimmed(Split(TrimSpace(raw), ','));
    TokenIdsAreGroupIds(tokens, []);
    var ids := TokenIds(tokens, []).value;
    forall i | 0 <= i < |Canonical(ids)| ensures 1 <= Canonical(ids)[i] <= UINT64_MAX {
      assert Canonical(ids)[i] in ids;
    }
  }
}
