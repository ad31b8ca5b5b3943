/** Snippets around a match (server/internal/helpers/text.go) and what survives of the match in them. */
module Snippets {
  import opened ByteStrings
  import opened Utf8

  const ELLIPSIS: Bytes := [0x2E, 0x2E, 0x2E]

  function TruncateRunes(s: Bytes, maxLen: int): Bytes {
    if maxLen <= 0 then []
    else if |Runes(s)| <= maxLen then s
    else Encode(Runes(s)[..maxLen]) + ELLIPSIS
  }

  function SnippetAroundIndex(s: Bytes, idx: int, matchLen: nat, before: nat, after: nat): Bytes {
    var runes := Runes(s);
    if runes == [] || idx < 0 then []
    else
      var at := if idx >= |runes| then |runes| - 1 else idx;
      var start := if at - before < 0 then 0 else at - before;
      var end := if at + matchLen + after > |runes| then |runes| else at + matchLen + after;
      Encode(runes[start..end])
  }

  function SnippetAroundByteIndex(target: Bytes, byteIdx: int, matchByteLen: nat, before: nat, after: nat): Bytes
    requires byteIdx + matchByteLen <= |target|
  {
    if byteIdx < 0 || byteIdx >= |target| then []
    else
      var runeIdx := |Runes(target[..byteIdx])|;
      var matchRunes := |Runes(target[byteIdx..byteIdx + matchByteLen])|;
      SnippetAroundIndex(target, runeIdx, matchRunes, before, after)
  }

  predicate OccursAt(s: Bytes, k: Bytes, i: nat) { i + |k| <= |s| && s[i..i + |k|] == k }

  predicate Occurs(s: Bytes, k: Bytes) { exists i: nat :: i <= |s| && OccursAt(s, k, i) }

  lemma OccursInMiddle(a: Bytes, k: Bytes, b: Bytes)
    ensures Occurs(a + k + b, k)
  {
    assert OccursAt(a + k + b, k, |a|);
  }

  lemma SliceOfThree(a: seq<Bytes>, k: seq<Bytes>, b: seq<Bytes>, start: nat, end: nat)
    requires start <= |a| && |a| + |k| <= end <= |a| + |k| + |b|
    ensures (a + k + b)[start..end] == a[start..] + k + b[..end - |a| - |k|]
  {
  }

  lemma EncodeThree(a: seq<Bytes>, k: seq<Bytes>, b: seq<Bytes>)
    ensures Encode(a + k + b) == Encode(a) + Encode(k) + Encode(b)
  {
    EncodeConcat(a + k, b);
    EncodeConcat(a, k);
  }

  function Left(a: seq<Bytes>, before: nat): seq<Bytes> { if |a| <= before then a else a[|a| - before..] }

  function Right(b: seq<Bytes>, after: nat): seq<Bytes> { if |b| <= after then b else b[..after] }

  lemma SliceAround(a: seq<Bytes>, m: seq<Bytes>, b: seq<Bytes>, before: nat, after: nat, start: nat, end: nat)
    requires start == if |a| <= before then 0 else |a| - before
    requires end == if |b| <= after then |a| + |m| + |b| else |a| + |m| + after
    ensures (a + m + b)[start..end] == Left(a, before) + m + Right(b, after)
  {
    assert a[start..] == Left(a, before) && b[..end - |a| - |m|] == Right(b, after);
    SliceOfThree(a, m, b, start, end);
  }

  lemma SnippetIs(s: Bytes, idx: nat, matchLen: nat, before: nat, after: nat, start: nat, end: nat)
    requires idx < |Runes(s)|
    requires start == if idx <= before then 0 else idx - before
    requires end == if |Runes(s)| <= idx + matchLen + after then |Runes(s)| else idx + matchLen + after
    ensures SnippetAroundIndex(s, idx, matchLen, before, after) == Encode(Runes(s)[start..end])
  {
  }

  lemma SnippetOfThree(s: Bytes, a: seq<Bytes>, m: seq<Bytes>, b: seq<Bytes>, before: nat, after: nat)
    requires Runes(s) == a + m + b && m != []
    ensures SnippetAroundIndex(s, |a|, |m|, before, after) == Encode(Left(a, before)) + Encode(m) + Encode(Right(b, after))
  {
    var start := if |a| <= before then 0 else |a| - before;
    var end := if |b| <= after then |a| + |m| + |b| else |a| + |m| + after;
    SnippetIs(s, |a|, |m|, before, after, start, end);
    SliceAround(a, m, b, before, after, start, end);
    EncodeThree(Left(a, before), m, Right(b, after));
  }

  lemma CutInThree(target: Bytes, idx: nat, n: nat)
    requires 0 < n && idx + n <= |target| && Valid(target[idx..idx + n])
    ensures Runes(target) == Runes(target[..idx]) + Runes(target[idx..idx + n]) + Runes(target[idx + n..])
    ensures Runes(target[idx..idx + n]) != []
  {
    assert target == target[..idx] + target[idx..idx + n] + target[idx + n..];
    RunesSplit(target[..idx], target[idx..idx + n], target[idx + n..]);
  }

  /** The snippet is the whole match between at most `before` runes and at most `after` runes. */
  lemma SnippetHoldsMatch(target: Bytes, idx: nat, found: Bytes, before: nat, after: nat)
    returns (left: seq<Bytes>, right: seq<Bytes>)
    requires OccursAt(target, found, idx) && Valid(found) && found != []
    ensures AllRunes(left) && AllRunes(right) && |left| <= before && |right| <= after
    ensures SnippetAroundByteIndex(target, idx, |found|, before, after) == Encode(left) + found + Encode(right)
    ensures left == Left(Runes(target[..idx]), before) && right == Right(Runes(target[idx + |found|..]), after)
  {
    var n := |found|;
    var a, m, b := Runes(target[..idx]), Runes(found), Runes(target[idx + n..]);
    CutInThree(target, idx, n);
    SnippetOfThree(target, a, m, b, before, after);
    EncodeOfRunes(found);
    RunesAreRunes(target[..idx]);
    RunesAreRunes(target[idx + n..]);
    left, right := Left(a, before), Right(b, after);
  }

  /** Cutting to `maxLen` runes keeps what ends within them. */
  lemma CutKeeps(p: Bytes, k: Bytes, r: Bytes, maxLen: int)
    requires Valid(p) && Valid(k) && k != [] && |Runes(p)| + |Runes(k)| <= maxLen
    ensures Occurs(TruncateRunes(p + k + r, maxLen), k)
  {
    RunesSplit(p, k, r);
    if |Runes(p + k + r)| <= maxLen {
      OccursInMiddle(p, k, r);
    } else {
      var a, m, b := Runes(p), Runes(k), Runes(r);
      SliceOfThree(a, m, b, 0, maxLen);
      var cut := b[..maxLen - |a| - |m|];
      EncodeThree(a, m, cut);
      EncodeOfRunes(k);
      assert a[0..] == a;
      var stored := TruncateRunes(p + k + r, maxLen);
      assert stored == Encode(a) + k + (Encode(cut) + ELLIPSIS);
      OccursInMiddle(Encode(a), k, Encode(cut) + ELLIPSIS);
    }
  }

  /** A match of at most 128 bytes of valid text survives in the stored snippet: a scheme prefix of 8 runes, at most 50
      before it, and 128 for itself make less than the 200 that are kept. */
  lemma StoredSnippetHoldsMatch(prefix: Bytes, target: Bytes, idx: nat, found: Bytes)
    requires Valid(prefix) && |prefix| <= 8
    requires OccursAt(target, found, idx) && Valid(found) && 0 < |found| <= 128
    ensures Occurs(TruncateRunes(prefix + SnippetAroundByteIndex(target, idx, |found|, 50, 100), 200), found)
  {
    var left, right := SnippetHoldsMatch(target, idx, found, 50, 100);
    PrefixedKeeps(prefix, left, found, Encode(right));
  }

  lemma PrefixedRunes(prefix: Bytes, left: seq<Bytes>)
    requires Valid(prefix) && AllRunes(left)
    ensures Valid(prefix + Encode(left)) && |Runes(prefix + Encode(left))| <= |prefix| + |left|
  {
    RunesOfEncode(left);
    RunesAfterValid(prefix, Encode(left));
    RunesAreRunes(prefix);
    ValidConcat(prefix, Encode(left));
  }

  lemma PrefixedKeeps(prefix: Bytes, left: seq<Bytes>, k: Bytes, r: Bytes)
    requires Valid(prefix) && |prefix| <= 8 && AllRunes(left) && |left| <= 50 && Valid(k) && 0 < |k| <= 128
    ensures Occurs(TruncateRunes(prefix + (Encode(left) + k + r), 200), k)
  {
    var e := Encode(left);
    PrefixedRunes(prefix, left);
    RunesAreRunes(k);
    CutKeeps(prefix + e, k, r, 200);
    Regroup(prefix, e, k, r);
  }

  lemma Regroup(a: Bytes, b: Bytes, c: Bytes, d: Bytes)
    ensures a + (b + c + d) == a + b + c + d
  {
  }

  lemma {:induction false} ValidConcat(a: Bytes, b: Bytes)
    requires Valid(a) && Valid(b)
    ensures Valid(a + b)
  {
    if a == [] {
      assert a + b == b;
    } else {
      GoodStart(a, b);
      ValidConcat(a[Width(a)..], b);
    }
  }
}
