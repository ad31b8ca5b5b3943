/** Search input is escaped before it is placed between two `%` in an ILIKE pattern
    (server/internal/repository/repository.go). */
module EscapeLike {
  import opened Wrappers

  // ---------- the code ----------

  /** strings.ReplaceAll for a pattern of one character. */
  function ReplaceAll(s: string, c: char, repl: string): string {
    if s == [] then [] else (if s[0] == c then repl else [s[0]]) + ReplaceAll(s[1..], c, repl)
  }

  function Escape(s: string): string {
    ReplaceAll(ReplaceAll(ReplaceAll(s, '\\', "\\\\"), '%', "\\%"), '_', "\\_")
  }

  // ---------- LIKE with a backslash escape, ISO/IEC 9075-2 section 8.5 ----------

  datatype Item = AnyRun | AnyOne | Literal(c: char)

  /** The items of a pattern; None where the standard raises "invalid escape sequence". */
  function ParsePattern(p: string): Option<seq<Item>> {
    if p == [] then Some([])
    else if p[0] == '\\' then
      if |p| >= 2 && p[1] in "\\%_" then Prepend(Literal(p[1]), ParsePattern(p[2..])) else None
    else if p[0] == '%' then Prepend(AnyRun, ParsePattern(p[1..]))
    else if p[0] == '_' then Prepend(AnyOne, ParsePattern(p[1..]))
    else Prepend(Literal(p[0]), ParsePattern(p[1..]))
  }

  function Prepend(i: Item, rest: Option<seq<Item>>): Option<seq<Item>> {
    match rest case None => None case Some(items) => Some([i] + items)
  }

  /** `fold` is the identity for LIKE and the collation's lower-casing for ILIKE. */
  predicate Matches(items: seq<Item>, t: string, fold: char -> char)
    decreases |items| + |t|
  {
    if items == [] then t == []
    else match items[0]
      case AnyRun => Matches(items[1..], t, fold) || (t != [] && Matches(items, t[1..], fold))
      case AnyOne => t != [] && Matches(items[1..], t[1..], fold)
      case Literal(c) => t != [] && fold(t[0]) == fold(c) && Matches(items[1..], t[1..], fold)
  }

  predicate Like(p: string, t: string, fold: char -> char) {
    ParsePattern(p).Some? && Matches(ParsePattern(p).value, t, fold)
  }

  ghost predicate OccursAt(s: string, t: string, i: nat, fold: char -> char) {
    i + |s| <= |t| && forall k :: 0 <= k < |s| ==> fold(t[i + k]) == fold(s[k])
  }

  ghost predicate Occurs(s: string, t: string, fold: char -> char) {
    exists i: nat :: OccursAt(s, t, i, fold)
  }

  // ---------- the three passes are one escape per character ----------

  function EscapeChar(c: char): string { if c in "\\%_" then ['\\', c] else [c] }

  function EscapeEach(s: string): string {
    if s == [] then [] else EscapeChar(s[0]) + EscapeEach(s[1..])
  }

  lemma Regroup(x: string, y: string, z: string)
    ensures x + (y + z) == x + y + z
  {
  }

  lemma {:induction false} ReplaceAllConcat(a: string, b: string, c: char, repl: string)
    ensures ReplaceAll(a + b, c, repl) == ReplaceAll(a, c, repl) + ReplaceAll(b, c, repl)
  {
    if a == [] {
      assert a + b == b;
    } else {
      ReplaceAllConcat(a[1..], b, c, repl);
      assert (a + b)[1..] == a[1..] + b;
      Regroup(if a[0] == c then repl else [a[0]], ReplaceAll(a[1..], c, repl), ReplaceAll(b, c, repl));
    }
  }

  /** Holds because the backslash pass runs first: the later passes add backslashes that nothing escapes again. */
  lemma {:induction false} PassesEscapeEachCharacterOnce(s: string)
    ensures Escape(s) == EscapeEach(s)
  {
    if s != [] {
      PassesEscapeEachCharacterOnce(s[1..]);
      var first, rest := [s[0]], s[1..];
      assert s == first + rest;
      ReplaceAllConcat(first, rest, '\\', "\\\\");
      var first1, rest1 := ReplaceAll(first, '\\', "\\\\"), ReplaceAll(rest, '\\', "\\\\");
      ReplaceAllConcat(first1, rest1, '%', "\\%");
      var first2, rest2 := ReplaceAll(first1, '%', "\\%"), ReplaceAll(rest1, '%', "\\%");
      ReplaceAllConcat(first2, rest2, '_', "\\_");
      assert Escape(s) == ReplaceAll(first2, '_', "\\_") + Escape(rest);
      EscapeOne(s[0]);
    }
  }

  lemma EscapeOne(c: char)
    ensures Escape([c]) == EscapeChar(c)
  {
    ReplaceOne(c, '\\', "\\\\");
    var one := ReplaceAll([c], '\\', "\\\\");
    if c == '\\' {
      ReplaceTwo('\\', '\\', '%', "\\%");
      ReplaceTwo('\\', '\\', '_', "\\_");
    } else {
      ReplaceOne(c, '%', "\\%");
      ReplaceOne(c, '_', "\\_");
      ReplaceTwo('\\', '%', '_', "\\_");
    }
  }

  lemma ReplaceOne(c: char, d: char, repl: string)
    ensures ReplaceAll([c], d, repl) == if c == d then repl else [c]
  {
    assert [c][1..] == [];
  }

  lemma ReplaceTwo(a: char, b: char, d: char, repl: string)
    requires a != d && b != d
    ensures ReplaceAll([a, b], d, repl) == [a, b]
  {
    assert [a, b][1..] == [b];
    ReplaceOne(b, d, repl);
  }

  // ---------- the pattern means "contains the input" ----------

  function Literals(s: string): seq<Item> { seq(|s|, i requires 0 <= i < |s| => Literal(s[i])) }

  lemma {:induction false} EscapedParses(s: string)
    ensures ParsePattern(EscapeEach(s) + "%") == Some(Literals(s) + [AnyRun])
  {
    var p := EscapeEach(s) + "%";
    if s == [] {
      assert p == "%" && p[1..] == [];
      assert ParsePattern(p[1..]) == Some([]);
      assert Literals(s) + [AnyRun] == [AnyRun] + [];
    } else {
      EscapedParses(s[1..]);
      var rest := EscapeEach(s[1..]) + "%";
      assert p == EscapeChar(s[0]) + rest;
      assert p[|EscapeChar(s[0])|..] == rest;
      assert Literals(s) == [Literal(s[0])] + Literals(s[1..]);
      assert [Literal(s[0])] + (Literals(s[1..]) + [AnyRun]) == Literals(s) + [AnyRun];
    }
  }

  lemma {:induction false} TrailingRunMatchesAnything(t: string, fold: char -> char)
    ensures Matches([AnyRun], t, fold)
  {
    if t != [] { TrailingRunMatchesAnything(t[1..], fold); }
  }

  lemma {:induction false} LiteralsMatchPrefix(s: string, t: string, fold: char -> char)
    ensures Matches(Literals(s) + [AnyRun], t, fold) <==> OccursAt(s, t, 0, fold)
  {
    var items := Literals(s) + [AnyRun];
    if s == [] {
      assert items == [AnyRun];
      TrailingRunMatchesAnything(t, fold);
    } else if t != [] {
      LiteralsMatchPrefix(s[1..], t[1..], fold);
      assert items[1..] == Literals(s[1..]) + [AnyRun];
      if OccursAt(s[1..], t[1..], 0, fold) && fold(t[0]) == fold(s[0]) {
        forall k | 0 <= k < |s| ensures fold(t[0 + k]) == fold(s[k]) {
          if k > 0 { assert fold(t[1..][0 + (k - 1)]) == fold(s[1..][k - 1]); }
        }
      }
      if OccursAt(s, t, 0, fold) {
        assert fold(t[0 + 0]) == fold(s[0]);
        forall k | 0 <= k < |s[1..]| ensures fold(t[1..][0 + k]) == fold(s[1..][k]) {
          assert fold(t[0 + (k + 1)]) == fold(s[k + 1]);
        }
      }
    }
  }

  lemma {:induction false} LeadingRunSlides(s: string, t: string, fold: char -> char)
    ensures Matches([AnyRun] + Literals(s) + [AnyRun], t, fold) <==> Occurs(s, t, fold)
  {
    var items := [AnyRun] + Literals(s) + [AnyRun];
    assert items[1..] == Literals(s) + [AnyRun];
    LiteralsMatchPrefix(s, t, fold);
    if t != [] {
      LeadingRunSlides(s, t[1..], fold);
      if Occurs(s, t[1..], fold) {
        var i: nat :| OccursAt(s, t[1..], i, fold);
        forall k | 0 <= k < |s| ensures fold(t[i + 1 + k]) == fold(s[k]) {
          assert fold(t[1..][i + k]) == fold(s[k]);
        }
        assert OccursAt(s, t, i + 1, fold);
      }
      if Occurs(s, t, fold) && !OccursAt(s, t, 0, fold) {
        var i: nat :| OccursAt(s, t, i, fold);
        forall k | 0 <= k < |s| ensures fold(t[1..][i - 1 + k]) == fold(s[k]) {
          assert fold(t[i + k]) == fold(s[k]);
        }
        assert OccursAt(s, t[1..], i - 1, fold);
      }
    } else if Occurs(s, t, fold) {
      var i: nat :| OccursAt(s, t, i, fold);
    }
  }

  /** For every input and every text: the pattern is well formed, and it matches exactly the texts
      that contain the input, whatever wildcard characters the input holds. */
  lemma EscapedPatternMatchesExactlyContainment(s: string, t: string, fold: char -> char)
    ensures ParsePattern("%" + Escape(s) + "%") == Some([AnyRun] + Literals(s) + [AnyRun])
    ensures Like("%" + Escape(s) + "%", t, fold) <==> Occurs(s, t, fold)
  {
    PassesEscapeEachCharacterOnce(s);
    EscapedParses(s);
    var p := "%" + Escape(s) + "%";
    assert p[1..] == EscapeEach(s) + "%";
    assert [AnyRun] + (Literals(s) + [AnyRun]) == [AnyRun] + Literals(s) + [AnyRun];
    LeadingRunSlides(s, t, fold);
  }
}
