/** encoding/base64 RawStdEncoding: the standard alphabet without padding (RFC 4648 sections 3.2 and 4). */
module Base64 {
  import opened Wrappers
  import opened ByteStrings

  function Symbol(i: int): char
    requires 0 <= i < 64
  {
    if i < 26 then ('A' as int + i) as char
    else if i < 52 then ('a' as int + i - 26) as char
    else if i < 62 then ('0' as int + i - 52) as char
    else if i == 62 then '+' else '/'
  }

  /** The six bits a character of the alphabet stands for. */
  function Sextet(c: char): (r: Option<int>)
    ensures r.Some? ==> 0 <= r.value < 64 && Symbol(r.value) == c
  {
    if 'A' <= c <= 'Z' then Some(c as int - 'A' as int)
    else if 'a' <= c <= 'z' then Some(c as int - 'a' as int + 26)
    else if '0' <= c <= '9' then Some(c as int - '0' as int + 52)
    else if c == '+' then Some(62)
    else if c == '/' then Some(63) else None
  }

  function Encode(b: seq<byte>): string {
    if b == [] then []
    else if |b| == 1 then [Symbol(b[0] / 4), Symbol(b[0] % 4 * 16)]
    else if |b| == 2 then
      [Symbol(b[0] / 4), Symbol(b[0] % 4 * 16 + b[1] / 16), Symbol(b[1] % 16 * 4)]
    else
      [Symbol(b[0] / 4), Symbol(b[0] % 4 * 16 + b[1] / 16), Symbol(b[1] % 16 * 4 + b[2] / 64), Symbol(b[2] % 64)]
      + Encode(b[3..])
  }

  /** The decoder skips line breaks wherever they stand, and it ignores the unused bits of the last symbol. */
  function Decode(s: string): Option<seq<byte>> { DecodeSymbols(DropLineBreaks(s)) }

  function DropLineBreaks(s: string): string {
    if s == [] then [] else (if s[0] in "\r\n" then [] else [s[0]]) + DropLineBreaks(s[1..])
  }

  function DecodeSymbols(s: string): Option<seq<byte>> {
    if s == [] then Some([])
    else if |s| == 1 || Sextet(s[0]).None? || Sextet(s[1]).None? then None
    else
      var x, y := Sextet(s[0]).value, Sextet(s[1]).value;
      if |s| == 2 then Some([x * 4 + y / 16])
      else if Sextet(s[2]).None? then None
      else
        var z := Sextet(s[2]).value;
        if |s| == 3 then Some([x * 4 + y / 16, y % 16 * 16 + z / 4])
        else if Sextet(s[3]).None? then None
        else match DecodeSymbols(s[4..])
          case None => None
          case Some(rest) =>
            Some([x * 4 + y / 16, y % 16 * 16 + z / 4, z % 4 * 64 + Sextet(s[3]).value] + rest)
  }

  lemma SextetOfSymbol(i: int)
    requires 0 <= i < 64
    ensures Sextet(Symbol(i)) == Some(i)
  {
  }

  lemma {:induction false} EncodeAlphabet(b: seq<byte>)
    ensures forall i :: 0 <= i < |Encode(b)| ==> Sextet(Encode(b)[i]).Some?
  {
    if |b| > 2 { EncodeAlphabet(b[3..]); }
  }

  lemma {:induction false} NoLineBreaks(s: string)
    requires forall i :: 0 <= i < |s| ==> Sextet(s[i]).Some?
    ensures DropLineBreaks(s) == s
  {
    if s != [] {
      assert Sextet(s[0]).Some?;
      NoLineBreaks(s[1..]);
    }
  }

  /** The four sextets of three bytes give the bytes back. */
  lemma SextetsOfBytes(a: byte, b: byte, c: byte)
    ensures var w, x, y, z := a / 4, a % 4 * 16 + b / 16, b % 16 * 4 + c / 64, c % 64;
            && 0 <= w < 64 && 0 <= x < 64 && 0 <= y < 64 && 0 <= z < 64
            && w * 4 + x / 16 == a && x % 16 * 16 + y / 4 == b && y % 4 * 64 + z == c
  {
    var x, y := a % 4 * 16 + b / 16, b % 16 * 4 + c / 64;
    assert x / 16 == a % 4 && x % 16 == b / 16;
    assert y / 4 == b % 16 && y % 4 == c / 64;
  }

  lemma OneRoundTrip(a: byte)
    ensures DecodeSymbols(Encode([a])) == Some([a])
  {
    var w, x := a / 4, a % 4 * 16;
    SextetsOfBytes(a, 0, 0);
    SextetOfSymbol(w); SextetOfSymbol(x);
    assert Encode([a]) == [Symbol(w), Symbol(x)];
  }

  lemma TwoRoundTrip(a: byte, b: byte)
    ensures DecodeSymbols(Encode([a, b])) == Some([a, b])
  {
    var w, x, y := a / 4, a % 4 * 16 + b / 16, b % 16 * 4;
    SextetsOfBytes(a, b, 0);
    SextetOfSymbol(w); SextetOfSymbol(x); SextetOfSymbol(y);
    assert Encode([a, b]) == [Symbol(w), Symbol(x), Symbol(y)];
  }

  lemma QuadDecodes(w: int, x: int, y: int, z: int, rest: string)
    requires 0 <= w < 64 && 0 <= x < 64 && 0 <= y < 64 && 0 <= z < 64
    ensures var s := [Symbol(w), Symbol(x), Symbol(y), Symbol(z)] + rest;
            DecodeSymbols(rest).Some? ==>
              DecodeSymbols(s) == Some([w * 4 + x / 16, x % 16 * 16 + y / 4, y % 4 * 64 + z] + DecodeSymbols(rest).value)
  {
    var s := [Symbol(w), Symbol(x), Symbol(y), Symbol(z)] + rest;
    SextetOfSymbol(w); SextetOfSymbol(x); SextetOfSymbol(y); SextetOfSymbol(z);
    assert s[4..] == rest;
  }

  lemma ThreeRoundTrip(a: byte, b: byte, c: byte, rest: seq<byte>)
    requires DecodeSymbols(Encode(rest)) == Some(rest)
    ensures DecodeSymbols(Encode([a, b, c] + rest)) == Some([a, b, c] + rest)
  {
    var all := [a, b, c] + rest;
    assert all[3..] == rest && all[0] == a && all[1] == b && all[2] == c;
    var w, x, y, z := a / 4, a % 4 * 16 + b / 16, b % 16 * 4 + c / 64, c % 64;
    SextetsOfBytes(a, b, c);
    QuadDecodes(w, x, y, z, Encode(rest));
    assert Encode(all) == [Symbol(w), Symbol(x), Symbol(y), Symbol(z)] + Encode(rest);
  }

  lemma {:induction false} SymbolsRoundTrip(b: seq<byte>)
    ensures DecodeSymbols(Encode(b)) == Some(b)
  {
    if |b| == 1 {
      assert b == [b[0]];
      OneRoundTrip(b[0]);
    } else if |b| == 2 {
      assert b == [b[0], b[1]];
      TwoRoundTrip(b[0], b[1]);
    } else if |b| > 2 {
      SymbolsRoundTrip(b[3..]);
      ThreeRoundTrip(b[0], b[1], b[2], b[3..]);
      assert b == [b[0], b[1], b[2]] + b[3..];
    }
  }

  /** Decoding undoes encoding, and the text stays inside the alphabet. */
  lemma DecodeEncode(b: seq<byte>)
    ensures Decode(Encode(b)) == Some(b)
    ensures forall c :: c in Encode(b) ==> Sextet(c).Some?
  {
    EncodeAlphabet(b);
    NoLineBreaks(Encode(b));
    SymbolsRoundTrip(b);
  }
}
