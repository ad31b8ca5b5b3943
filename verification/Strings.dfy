/** The few standard-library string operations the printers and parsers are built from. */
module Strings {
  import opened Wrappers

  // ---------- strings.TrimSpace ----------

  /** The white space of Unicode, as strings.TrimSpace sees it. */
  predicate IsSpace(c: char) {
    || '\t' <= c <= '\r' || c == ' ' || c == '\U{0085}' || c == '\U{00A0}' || c == '\U{1680}'
    || '\U{2000}' <= c <= '\U{200A}' || c == '\U{2028}' || c == '\U{2029}'
    || c == '\U{202F}' || c == '\U{205F}' || c == '\U{3000}'
  }

  function TrimLeftBy<T>(s: seq<T>, drop: T -> bool): (r: seq<T>)
    ensures |r| <= |s| && r == s[|s| - |r|..]
    ensures r == [] || !drop(r[0])
  {
    if s != [] && drop(s[0]) then TrimLeftBy(s[1..], drop) else s
  }

  function TrimRightBy<T>(s: seq<T>, drop: T -> bool): (r: seq<T>)
    ensures |r| <= |s| && r == s[..|r|]
    ensures r == [] || !drop(r[|r| - 1])
  {
    if s != [] && drop(s[|s| - 1]) then TrimRightBy(s[..|s| - 1], drop) else s
  }

  function TrimBy<T>(s: seq<T>, drop: T -> bool): (r: seq<T>)
    ensures r == [] || (!drop(r[0]) && !drop(r[|r| - 1]))
  {
    TrimRightBy(TrimLeftBy(s, drop), drop)
  }

  function TrimSpace(s: string): (r: string)
    ensures r == [] || (!IsSpace(r[0]) && !IsSpace(r[|r| - 1]))
  {
    TrimBy(s, IsSpace)
  }

  lemma TrimNothing<T>(s: seq<T>, drop: T -> bool)
    requires s == [] || (!drop(s[0]) && !drop(s[|s| - 1]))
    ensures TrimBy(s, drop) == s
  {
  }

  /** strings.TrimSpace leaves nothing of it. */
  predicate AllSpace(text: string) { forall i :: 0 <= i < |text| ==> IsSpace(text[i]) }

  lemma {:induction false} TrimLeftOfSpace(text: string)
    ensures TrimLeftBy(text, IsSpace) == "" <==> AllSpace(text)
  {
    if text != "" && IsSpace(text[0]) {
      TrimLeftOfSpace(text[1..]);
      assert text == [text[0]] + text[1..];
    }
  }

  lemma AllSpaceMeans(text: string)
    ensures AllSpace(text) <==> TrimSpace(text) == ""
  {
    TrimLeftOfSpace(text);
    var left := TrimLeftBy(text, IsSpace);
    if left != "" && TrimRightBy(left, IsSpace) == "" { TrimRightKeepsFirst(left); }
  }

  method IsBlank(text: string) returns (blank: bool)
    ensures blank == AllSpace(text)
  {
    AllSpaceMeans(text);
    return TrimSpace(text) == "";
  }

  lemma {:induction false} TrimRightKeepsFirst(text: string)
    requires text != "" && !IsSpace(text[0])
    ensures TrimRightBy(text, IsSpace) != ""
  {
    if |text| > 1 && IsSpace(text[|text| - 1]) { TrimRightKeepsFirst(text[..|text| - 1]); }
  }

  lemma {:induction false} TrimLeftOfPadded(pad: string, text: string)
    requires AllSpace(pad)
    ensures TrimLeftBy(pad + text, IsSpace) == TrimLeftBy(text, IsSpace)
  {
    if pad == "" {
      assert pad + text == text;
    } else {
      assert (pad + text)[0] == pad[0] && (pad + text)[1..] == pad[1..] + text;
      TrimLeftOfPadded(pad[1..], text);
    }
  }

  lemma {:induction false} TrimRightOfPadded(text: string, pad: string)
    requires AllSpace(pad)
    ensures TrimRightBy(text + pad, IsSpace) == TrimRightBy(text, IsSpace)
  {
    if pad == "" {
      assert text + pad == text;
    } else {
      var n := |pad| - 1;
      var all := text + pad;
      assert all[|all| - 1] == pad[n] && all[..|all| - 1] == text + pad[..n];
      TrimRightOfPadded(text, pad[..n]);
    }
  }

  lemma {:induction false} TrimLeftBeforePadding(text: string, pad: string)
    requires AllSpace(pad)
    ensures TrimSpace(text + pad) == TrimSpace(text)
  {
    var all := text + pad;
    if text == "" {
      assert all == pad;
      AllSpaceMeans(pad);
      AllSpaceMeans(text);
    } else if IsSpace(text[0]) {
      assert all[0] == text[0] && all[1..] == text[1..] + pad;
      TrimLeftBeforePadding(text[1..], pad);
    } else {
      assert all[0] == text[0];
      TrimRightOfPadded(text, pad);
    }
  }

  /** White space around a text does not matter. */
  lemma TrimOfPadded(left: string, text: string, right: string)
    requires AllSpace(left) && AllSpace(right)
    ensures TrimSpace(left + text + right) == TrimSpace(text)
  {
    TrimLeftBeforePadding(left + text, right);
    TrimLeftOfPadded(left, text);
  }

  lemma {:induction false} DroppedLeft(text: string)
    ensures AllSpace(text[..|text| - |TrimLeftBy(text, IsSpace)|])
  {
    if text != "" && IsSpace(text[0]) {
      var rest := text[1..];
      var n := |rest| - |TrimLeftBy(rest, IsSpace)|;
      DroppedLeft(rest);
      SpaceInFront(text, n);
    }
  }

  lemma SpaceInFront(text: string, n: nat)
    requires n < |text| && IsSpace(text[0]) && AllSpace(text[1..][..n])
    ensures AllSpace(text[..n + 1])
  {
    forall i | 0 <= i < n + 1 ensures IsSpace(text[i]) {
      if i > 0 { assert text[1..][..n][i - 1] == text[i]; }
    }
  }

  lemma {:induction false} DroppedRight(text: string)
    ensures AllSpace(text[|TrimRightBy(text, IsSpace)|..])
  {
    if text != "" && IsSpace(text[|text| - 1]) {
      var n := |text| - 1;
      var k := |TrimRightBy(text[..n], IsSpace)|;
      DroppedRight(text[..n]);
      assert text[k..] == text[..n][k..] + [text[n]];
    }
  }

  /** A text is what remains of it after trimming, between white space. */
  lemma TrimSplits(text: string) returns (left: string, right: string)
    ensures AllSpace(left) && AllSpace(right) && text == left + TrimSpace(text) + right
  {
    var rest := TrimLeftBy(text, IsSpace);
    DroppedLeft(text);
    DroppedRight(rest);
    left, right := text[..|text| - |rest|], rest[|TrimRightBy(rest, IsSpace)|..];
    Glued(text, rest, TrimRightBy(rest, IsSpace));
  }

  lemma Glued(text: string, rest: string, core: string)
    requires |core| <= |rest| <= |text| && rest == text[|text| - |rest|..] && core == rest[..|core|]
    ensures text == text[..|text| - |rest|] + core + rest[|core|..]
  {
    assert rest == core + rest[|core|..];
    assert text == text[..|text| - |rest|] + rest;
  }

  // ---------- strings.Split, strings.Join and strings.Cut on a one-character separator ----------

  function Split(s: string, sep: char): (parts: seq<string>)
    ensures parts != []
  {
    if s == [] then [[]]
    else
      var rest := Split(s[1..], sep);
      if s[0] == sep then [[]] + rest else [[s[0]] + rest[0]] + rest[1..]
  }

  function Join(parts: seq<string>, sep: char): string {
    if parts == [] then []
    else if |parts| == 1 then parts[0]
    else parts[0] + [sep] + Join(parts[1..], sep)
  }

  /** What stands before and after the first `sep`, if there is one. */
  function Cut(s: string, sep: char): Option<(string, string)> {
    if s == [] then None
    else if s[0] == sep then Some(([], s[1..]))
    else match Cut(s[1..], sep)
      case None => None
      case Some((before, after)) => Some(([s[0]] + before, after))
  }

  lemma {:induction false} CutAt(before: string, sep: char, after: string)
    requires sep !in before
    ensures Cut(before + [sep] + after, sep) == Some((before, after))
  {
    var s := before + [sep] + after;
    if before == [] {
      assert s[1..] == after;
    } else {
      CutAt(before[1..], sep, after);
      assert s[1..] == before[1..] + [sep] + after;
      assert s[0] == before[0] && [s[0]] + before[1..] == before;
    }
  }

  lemma {:induction false} SplitNone(s: string, sep: char)
    requires sep !in s
    ensures Split(s, sep) == [s]
  {
    if s != [] {
      SplitNone(s[1..], sep);
      assert [s[0]] + s[1..] == s;
    }
  }

  lemma {:induction false} SplitFirst(first: string, sep: char, rest: string)
    requires sep !in first
    ensures Split(first + [sep] + rest, sep) == [first] + Split(rest, sep)
  {
    var s := first + [sep] + rest;
    if first == [] {
      assert s[1..] == rest;
    } else {
      SplitFirst(first[1..], sep, rest);
      assert s[1..] == first[1..] + [sep] + rest;
      assert [s[0]] + first[1..] == first;
    }
  }

  /** Splitting undoes joining when no part holds the separator. */
  lemma {:induction false} SplitJoin(parts: seq<string>, sep: char)
    requires parts != []
    requires forall p :: p in parts ==> sep !in p
    ensures Split(Join(parts, sep), sep) == parts
  {
    if |parts| == 1 {
      SplitNone(parts[0], sep);
    } else {
      SplitJoin(parts[1..], sep);
      SplitFirst(parts[0], sep, Join(parts[1..], sep));
    }
  }

  // ---------- strconv.FormatUint and strconv.ParseUint in base ten ----------

  predicate IsDigit(c: char) { '0' <= c <= '9' }

  predicate AllDigits(s: string) { forall i :: 0 <= i < |s| ==> IsDigit(s[i]) }

  function DecimalValue(s: string): nat
    requires AllDigits(s)
  {
    if s == [] then 0
    else 10 * DecimalValue(s[..|s| - 1]) + (s[|s| - 1] as int - '0' as int)
  }

  function FormatUint(n: nat): (s: string)
    ensures s != [] && AllDigits(s)
    ensures DecimalValue(s) == n
  {
    var digit := ('0' as int + n % 10) as char;
    if n < 10 then [digit]
    else
      var s := FormatUint(n / 10) + [digit];
      assert s[..|s| - 1] == FormatUint(n / 10);
      s
  }

  /** Digits only, at least one, and no more than `max`; leading zeros are accepted, signs are not. */
  function ParseUint(s: string, max: nat): Option<nat> {
    if s != [] && AllDigits(s) && DecimalValue(s) <= max then Some(DecimalValue(s)) else None
  }
}
