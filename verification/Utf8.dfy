/** Byte strings and their runes, as Go converts between them: a byte that starts no valid UTF-8 sequence is one rune,
    which is written back as U+FFFD. A rune is represented by its encoding. */
module Utf8 {
  import opened ByteStrings

  const REPLACEMENT: Bytes := [0xEF, 0xBF, 0xBD]

  /** The length that a first byte announces; 0 if it announces none. */
  function Announced(b: byte): nat {
    if b < 0x80 then 1
    else if 0xC2 <= b <= 0xDF then 2
    else if 0xE0 <= b <= 0xEF then 3
    else if 0xF0 <= b <= 0xF4 then 4
    else 0
  }

  predicate Continuation(b: byte) { 0x80 <= b <= 0xBF }

  /** Overlong forms, surrogates and values beyond U+10FFFF are excluded by the second byte. */
  predicate SecondFits(b: byte, second: byte) {
    && Continuation(second)
    && (b == 0xE0 ==> second >= 0xA0) && (b == 0xED ==> second <= 0x9F)
    && (b == 0xF0 ==> second >= 0x90) && (b == 0xF4 ==> second <= 0x8F)
  }

  /** The string starts with a valid sequence. */
  predicate Good(s: Bytes) {
    && s != [] && 0 < Announced(s[0]) <= |s|
    && (Announced(s[0]) > 1 ==> SecondFits(s[0], s[1]))
    && (Announced(s[0]) > 2 ==> Continuation(s[2]))
    && (Announced(s[0]) > 3 ==> Continuation(s[3]))
  }

  function Width(s: Bytes): (n: nat)
    requires s != []
    ensures 1 <= n <= |s|
  {
    if Good(s) then Announced(s[0]) else 1
  }

  function First(s: Bytes): Bytes
    requires s != []
  {
    if Good(s) then s[..Announced(s[0])] else REPLACEMENT
  }

  /** []rune(s). */
  function Runes(s: Bytes): seq<Bytes> {
    if s == [] then [] else [First(s)] + Runes(s[Width(s)..])
  }

  /** string(runes). */
  function Encode(runes: seq<Bytes>): Bytes {
    if runes == [] then [] else runes[0] + Encode(runes[1..])
  }

  predicate Valid(s: Bytes) {
    s == [] || (Good(s) && Valid(s[Width(s)..]))
  }

  predicate Rune(u: Bytes) { Good(u) && |u| == Announced(u[0]) }

  predicate AllRunes(us: seq<Bytes>) { forall u :: u in us ==> Rune(u) }

  // ---------- encoding and decoding ----------

  lemma GoodStart(u: Bytes, t: Bytes)
    requires Good(u)
    ensures Good(u + t) && Width(u + t) == Width(u) && First(u + t) == First(u)
    ensures (u + t)[Width(u)..] == u[Width(u)..] + t
  {
  }

  lemma {:induction false} RunesAreRunes(s: Bytes)
    ensures AllRunes(Runes(s)) && |Runes(s)| <= |s|
  {
    if s != [] { RunesAreRunes(s[Width(s)..]); }
  }

  lemma {:induction false} RunesOfEncode(us: seq<Bytes>)
    requires AllRunes(us)
    ensures Runes(Encode(us)) == us && Valid(Encode(us))
  {
    if us != [] {
      assert us[0] in us;
      RunesOfEncode(us[1..]);
      GoodStart(us[0], Encode(us[1..]));
      assert Encode(us)[Width(us[0])..] == Encode(us[1..]);
    }
  }

  lemma {:induction false} EncodeOfRunes(s: Bytes)
    requires Valid(s)
    ensures Encode(Runes(s)) == s
  {
    if s != [] {
      EncodeOfRunes(s[Width(s)..]);
      assert Runes(s)[1..] == Runes(s[Width(s)..]);
    }
  }

  lemma InFront(a: Bytes, b: Bytes, c: Bytes)
    ensures a + (b + c) == (a + b) + c
  {
  }

  lemma {:induction false} EncodeConcat(us: seq<Bytes>, vs: seq<Bytes>)
    ensures Encode(us + vs) == Encode(us) + Encode(vs)
  {
    if us == [] {
      assert us + vs == vs;
    } else {
      var all := us + vs;
      assert all[0] == us[0] && all[1..] == us[1..] + vs;
      EncodeConcat(us[1..], vs);
      InFront(us[0], Encode(us[1..]), Encode(vs));
    }
  }

  // ---------- where strings may be cut ----------

  /** After a valid string decoding starts afresh. */
  lemma {:induction false} RunesAfterValid(k: Bytes, r: Bytes)
    requires Valid(k)
    ensures Runes(k + r) == Runes(k) + Runes(r)
  {
    if k == [] {
      assert k + r == r;
    } else {
      GoodStart(k, r);
      RunesAfterValid(k[Width(k)..], r);
    }
  }

  /** A byte that continues nothing cannot complete a sequence begun before it. */
  lemma GoodStops(p: Bytes, k: Bytes)
    requires p != [] && k != [] && !Continuation(k[0])
    ensures Good(p + k) <==> Good(p)
    ensures Width(p + k) == Width(p) && First(p + k) == First(p) && (p + k)[Width(p)..] == p[Width(p)..] + k
  {
    var s := p + k;
    assert s[0] == p[0] && s[|p|] == k[0] && forall i :: 0 <= i < |p| ==> s[i] == p[i];
    if Good(s) {
      assert forall i :: 0 < i < Announced(p[0]) ==> Continuation(s[i]);
      assert Announced(p[0]) <= |p|;
    }
    var n := Width(p);
    assert Width(s) == n;
    assert s[n..] == p[n..] + k;
  }

  lemma {:induction false} RunesBefore(p: Bytes, k: Bytes)
    requires k != [] && !Continuation(k[0])
    ensures Runes(p + k) == Runes(p) + Runes(k)
  {
    if p == [] {
      assert p + k == k;
    } else {
      GoodStops(p, k);
      RunesBefore(p[Width(p)..], k);
    }
  }

  /** Around a valid string in the middle, decoding falls apart into three. */
  lemma RunesSplit(p: Bytes, k: Bytes, r: Bytes)
    requires Valid(k) && k != []
    ensures Runes(p + k + r) == Runes(p) + Runes(k) + Runes(r)
  {
    assert (k + r)[0] == k[0] && p + k + r == p + (k + r);
    RunesBefore(p, k + r);
    RunesAfterValid(k, r);
  }
}
