/**
 The byte codecs under the share links (docs/lib/xray/base64.ts): base64 of sections 4 and 5 of
 RFC 4648, UTF-8 as TextEncoder and TextDecoder have it, and percent-encoding.
 */
module ShareBytes {
  import opened Prelude
  import opened Text

  type Byte = x: int | 0 <= x < 256 witness 0
  type Sextet = x: int | 0 <= x < 64 witness 0

  // ---- base64 ----------------------------------------------------------------------

  function Symbol(n: Sextet): (c: char)
    ensures Value(c) == Some(n)
  {
    if n < 26 then ('A' as int + n) as char
    else if n < 52 then ('a' as int + (n - 26)) as char
    else if n < 62 then ('0' as int + (n - 52)) as char
    else if n == 62 then '+'
    else '/'
  }

  function Value(c: char): Option<Sextet> {
    if 'A' <= c <= 'Z' then Some(c as int - 'A' as int)
    else if 'a' <= c <= 'z' then Some(c as int - 'a' as int + 26)
    else if '0' <= c <= '9' then Some(c as int - '0' as int + 52)
    else if c == '+' then Some(62)
    else if c == '/' then Some(63)
    else None
  }

  predicate IsSymbol(c: char) { Value(c).Some? }

  predicate AllSymbols(s: string) {
    forall i :: 0 <= i < |s| ==> IsSymbol(s[i])
  }

  /** The symbols of the bytes, without padding. */
  function Body(b: seq<Byte>): (s: string)
    ensures AllSymbols(s)
  {
    if |b| == 0 then ""
    else if |b| == 1 then [Symbol(b[0] / 4), Symbol((b[0] % 4) * 16)]
    else if |b| == 2 then [Symbol(b[0] / 4), Symbol((b[0] % 4) * 16 + b[1] / 16), Symbol((b[1] % 16) * 4)]
    else
      [Symbol(b[0] / 4), Symbol((b[0] % 4) * 16 + b[1] / 16), Symbol((b[1] % 16) * 4 + b[2] / 64), Symbol(b[2] % 64)]
        + Body(b[3..])
  }

  function Repeat(c: char, n: nat): (s: string)
    ensures |s| == n && forall i :: 0 <= i < n ==> s[i] == c
  {
    seq(n, i => c)
  }

  /** btoa. */
  function Btoa(b: seq<Byte>): string {
    Body(b) + Repeat('=', (3 - |b| % 3) % 3)
  }

  /** The bytes of a run of symbols, leftover bits dropped. */
  function Unpack(s: string): seq<Byte>
    requires AllSymbols(s)
  {
    if |s| < 2 then []
    else
      assert IsSymbol(s[0]) && IsSymbol(s[1]) && (|s| > 2 ==> IsSymbol(s[2])) && (|s| > 3 ==> IsSymbol(s[3]));
      var a, b := Value(s[0]).value, Value(s[1]).value;
      if |s| == 2 then [a * 4 + b / 16]
      else
        var c := Value(s[2]).value;
        if |s| == 3 then [a * 4 + b / 16, (b % 16) * 16 + c / 4]
        else
          var d := Value(s[3]).value;
          [a * 4 + b / 16, (b % 16) * 16 + c / 4, (c % 4) * 64 + d] + Unpack(s[4..])
  }

  predicate AsciiSpace(c: char) { c in {' ', '\t', '\n', '\r'} || c as int == 12 }

  function Without(s: string, drop: char -> bool): string {
    if s == "" then "" else (if drop(s[0]) then "" else [s[0]]) + Without(s[1..], drop)
  }

  function StripEquals(s: string): string {
    if |s| >= 1 && s[|s| - 1] == '=' then
      if |s| >= 2 && s[|s| - 2] == '=' then s[..|s| - 2] else s[..|s| - 1]
    else s
  }

  /** atob: the forgiving decoding of the HTML standard, which throws on anything else. */
  function Atob(text: string): Option<seq<Byte>> {
    var s := Without(text, AsciiSpace);
    var t := if |s| % 4 == 0 then StripEquals(s) else s;
    if |t| % 4 != 1 && AllSymbols(t) then Some(Unpack(t)) else None
  }

  /** \s of JavaScript regular expressions. */
  predicate JsSpace(c: char) { (IsSpace(c) && c as int != 0x85) || c as int == 0xFEFF }

  function Normal(c: char): char { if c == '-' then '+' else if c == '_' then '/' else c }

  function UrlSafe(c: char): char { if c == '+' then '-' else if c == '/' then '_' else c }

  function Map(s: string, f: char -> char): (r: string)
    ensures |r| == |s| && forall i :: 0 <= i < |s| ==> r[i] == f(s[i])
  {
    seq(|s|, i requires 0 <= i < |s| => f(s[i]))
  }

  function BytesToBase64(b: seq<Byte>): string { Btoa(b) }

  function Base64ToBytes(b64: string): Option<seq<Byte>> {
    var normalized := Without(Map(b64, Normal), JsSpace);
    var n := |normalized|;
    Atob(normalized + Repeat('=', (n + 3) / 4 * 4 - n))
  }

  function DropEquals(s: string): string {
    if s != "" && s[|s| - 1] == '=' then DropEquals(s[..|s| - 1]) else s
  }

  function BytesToBase64Url(b: seq<Byte>): string {
    DropEquals(Map(BytesToBase64(b), UrlSafe))
  }

  // Round trips.

  function Rest4(bytes: nat): nat { if bytes % 3 == 0 then 0 else bytes % 3 + 1 }

  lemma {:induction false} BodyLength(b: seq<Byte>)
    ensures |Body(b)| % 4 == Rest4(|b|)
  {
    hide Symbol, Rest4, AllSymbols;
    if |b| < 3 {
      ShortBody(b);
    } else {
      BodyLength(b[3..]);
      LongerBody(|Body(b[3..])|, |b|);
      assert |Body(b)| == 4 + |Body(b[3..])|;
    }
  }

  lemma ShortBody(b: seq<Byte>)
    requires |b| < 3
    ensures |Body(b)| % 4 == Rest4(|b|)
  {
  }

  lemma LongerBody(symbols: nat, bytes: nat)
    requires bytes >= 3 && symbols % 4 == Rest4(bytes - 3)
    ensures (symbols + 4) % 4 == Rest4(bytes)
  {
  }

  lemma {:induction false} UnpackBody(b: seq<Byte>)
    ensures Unpack(Body(b)) == b
  {
    hide Symbol, Value;
    if |b| == 1 {
    } else if |b| == 2 {
    } else if |b| >= 3 {
      UnpackBody(b[3..]);
      assert Body(b)[4..] == Body(b[3..]);
      Triple(b[0], b[1], b[2]);
      assert b == [b[0], b[1], b[2]] + b[3..];
    }
  }

  lemma Triple(x: Byte, y: Byte, z: Byte)
    ensures x / 4 * 4 + ((x % 4) * 16 + y / 16) / 16 == x
    ensures (((x % 4) * 16 + y / 16) % 16) * 16 + ((y % 16) * 4 + z / 64) / 4 == y
    ensures (((y % 16) * 4 + z / 64) % 4) * 64 + z % 64 == z
  {
  }

  lemma {:induction false} WithoutNothing(s: string, drop: char -> bool)
    requires forall i :: 0 <= i < |s| ==> !drop(s[i])
    ensures Without(s, drop) == s
  {
    if s != "" {
      WithoutNothing(s[1..], drop);
      assert s == [s[0]] + s[1..];
    }
  }

  lemma SymbolIsPlain(c: char)
    requires IsSymbol(c)
    ensures !AsciiSpace(c) && !JsSpace(c) && c != '=' && c != '-' && c != '_'
    ensures Normal(c) == c && Normal(UrlSafe(c)) == c && !JsSpace(UrlSafe(c)) && UrlSafe(c) != '='
  {
  }

  lemma StripPad(s: string, n: nat)
    requires n <= 2 && (s != "" ==> s[|s| - 1] != '=')
    ensures StripEquals(s + Repeat('=', n)) == s
  {
    var t := s + Repeat('=', n);
    assert t[..|s|] == s;
  }

  lemma PlainText(s: string, n: nat)
    requires AllSymbols(s)
    ensures forall i :: 0 <= i < |s| + n ==> !AsciiSpace((s + Repeat('=', n))[i])
    ensures s != "" ==> s[|s| - 1] != '='
  {
    hide IsSymbol, AsciiSpace;
    EqualsIsNoSpace();
    forall i | 0 <= i < |s| + n
      ensures !AsciiSpace((s + Repeat('=', n))[i])
    {
      if i < |s| {
        SymbolIsPlain(s[i]);
      }
    }
    if s != "" {
      SymbolIsPlain(s[|s| - 1]);
    }
  }

  /** A padded body decodes to its bytes. */
  lemma AtobBody(b: seq<Byte>)
    ensures Atob(Btoa(b)) == Some(b)
  {
    hide Body, IsSymbol, AsciiSpace, StripEquals, Unpack, AllSymbols;
    var s, n := Body(b), (3 - |b| % 3) % 3;
    BodyLength(b);
    UnpackBody(b);
    PlainText(s, n);
    WithoutNothing(s + Repeat('=', n), AsciiSpace);
    StripPad(s, n);
    PaddedLength(|s|, |b|, n);
  }

  lemma PaddedLength(symbols: nat, bytes: nat, n: nat)
    requires symbols % 4 == Rest4(bytes) && n == (3 - bytes % 3) % 3
    ensures (symbols + n) % 4 == 0 && symbols % 4 != 1
    ensures (symbols + 3) / 4 * 4 - symbols == n
  {
  }

  lemma EqualsIsNoSpace()
    ensures !AsciiSpace('=')
  {
  }

  lemma {:induction false} DropPadding(s: string, n: nat)
    requires s != "" ==> s[|s| - 1] != '='
    ensures DropEquals(s + Repeat('=', n)) == s
  {
    if n == 0 {
      assert s + Repeat('=', 0) == s;
    } else {
      var t := s + Repeat('=', n);
      assert t[..|t| - 1] == s + Repeat('=', n - 1);
      DropPadding(s, n - 1);
    }
  }

  /** The URL-safe form is the body with two symbols replaced. */
  lemma UrlIsBody(b: seq<Byte>)
    ensures BytesToBase64Url(b) == Map(Body(b), UrlSafe)
  {
    hide Body, IsSymbol, UrlSafe;
    BodySymbols(b);
    var s, n := Body(b), (3 - |b| % 3) % 3;
    var t := Map(s, UrlSafe);
    assert UrlSafe('=') == '=' by { EqualsStays(); }
    assert Map(Btoa(b), UrlSafe) == t + Repeat('=', n);
    if t != "" {
      SymbolIsPlain(s[|s| - 1]);
    }
    DropPadding(t, n);
  }

  lemma EqualsStays()
    ensures UrlSafe('=') == '='
  {
  }

  lemma BodySymbols(b: seq<Byte>)
    ensures forall i :: 0 <= i < |Body(b)| ==> IsSymbol(Body(b)[i])
  {
  }

  /** Decoding undoes the URL-safe encoding, for every byte sequence. */
  lemma Base64UrlRoundTrip(b: seq<Byte>)
    ensures Base64ToBytes(BytesToBase64Url(b)) == Some(b)
  {
    hide Body, IsSymbol, UrlSafe, Normal, JsSpace, Atob, AllSymbols;
    BodySymbols(b);
    var s := Body(b);
    UrlIsBody(b);
    var back := Map(Map(s, UrlSafe), Normal);
    forall i | 0 <= i < |s|
      ensures back[i] == s[i] && !JsSpace(s[i])
    {
      SymbolIsPlain(s[i]);
    }
    assert back == s;
    WithoutNothing(s, JsSpace);
    BodyLength(b);
    PaddedLength(|s|, |b|, (3 - |b| % 3) % 3);
    AtobBody(b);
  }

  // The loops between bytes and binary strings.

  /** A binary string: one character per byte. */
  predicate IsBinary(s: string) {
    forall i :: 0 <= i < |s| ==> s[i] as int < 256
  }

  function BytesOf(binary: string): seq<Byte>
    requires IsBinary(binary)
  {
    seq(|binary|, i requires 0 <= i < |binary| => binary[i] as int)
  }

  /** bytesToBase64: collects a binary string, which btoa then encodes. */
  method BytesToBase64Loop(bytes: seq<Byte>) returns (s: string)
    ensures s == BytesToBase64(bytes)
  {
    hide Btoa;
    var binary := "";
    for i := 0 to |bytes|
      invariant |binary| == i && IsBinary(binary) && forall k :: 0 <= k < i ==> binary[k] as int == bytes[k]
    {
      binary := binary + [bytes[i] as char];
    }
    assert BytesOf(binary) == bytes;
    return Btoa(BytesOf(binary));
  }

  /** The binary string atob returns for decoded bytes. */
  function BinaryOf(b: seq<Byte>): (s: string)
    ensures |s| == |b| && IsBinary(s) && forall i :: 0 <= i < |b| ==> s[i] as int == b[i]
  {
    seq(|b|, i requires 0 <= i < |b| => b[i] as char)
  }

  /** base64ToBytes: copies the code units of what atob returns into a byte array; null where atob throws. */
  method Base64ToBytesLoop(b64: string) returns (out: array?<Byte>)
    ensures out == null <==> Base64ToBytes(b64).None?
    ensures out != null ==> fresh(out) && out[..] == Base64ToBytes(b64).value
  {
    hide Base64ToBytes, BinaryOf;
    var decoded := Base64ToBytes(b64);
    if decoded.None? {
      return null;
    }
    var binary := BinaryOf(decoded.value);
    out := new Byte[|binary|];
    for i := 0 to |binary|
      invariant forall k :: 0 <= k < i ==> out[k] == binary[k] as int
    {
      out[i] := binary[i] as int;
    }
    assert out[..] == decoded.value;
  }

  // ---- UTF-8 -----------------------------------------------------------------------------

  function Utf8Char(c: char): seq<Byte> {
    var n := c as int;
    if n < 0x80 then [n]
    else if n < 0x800 then [0xC0 + n / 64, 0x80 + n % 64]
    else if n < 0x10000 then [0xE0 + n / 4096, 0x80 + n / 64 % 64, 0x80 + n % 64]
    else [0xF0 + n / 262144, 0x80 + n / 4096 % 64, 0x80 + n / 64 % 64, 0x80 + n % 64]
  }

  /** TextEncoder. */
  function Utf8(s: string): seq<Byte> {
    if s == "" then [] else Utf8Char(s[0]) + Utf8(s[1..])
  }

  const Replacement := 0xFFFD as char

  datatype Decoded = Decoded(code: Option<int>, used: nat)

  /** The continuation bytes of a sequence; a byte out of range ends it and is not consumed. */
  function Continue(b: seq<Byte>, at: nat, need: nat, code: nat, lower: Byte, upper: Byte): (d: Decoded)
    requires at <= |b|
    ensures at <= d.used <= |b|
    decreases need
  {
    if need == 0 then Decoded(Some(code), at)
    else if at == |b| || b[at] < lower || upper < b[at] then Decoded(None, at)
    else Continue(b, at + 1, need - 1, code * 64 + b[at] % 64, 0x80, 0xBF)
  }

  /** One step of the decoder of the WHATWG Encoding standard. */
  function DecodeFirst(b: seq<Byte>): (d: Decoded)
    requires b != []
    ensures 1 <= d.used <= |b|
  {
    var x := b[0];
    if x < 0x80 then Decoded(Some(x), 1)
    else if 0xC2 <= x <= 0xDF then Continue(b, 1, 1, x - 0xC0, 0x80, 0xBF)
    else if 0xE0 <= x <= 0xEF then
      Continue(b, 1, 2, x - 0xE0, if x == 0xE0 then 0xA0 else 0x80, if x == 0xED then 0x9F else 0xBF)
    else if 0xF0 <= x <= 0xF4 then
      Continue(b, 1, 3, x - 0xF0, if x == 0xF0 then 0x90 else 0x80, if x == 0xF4 then 0x8F else 0xBF)
    else Decoded(None, 1)
  }

  predicate Scalar(n: int) { 0 <= n < 0xD800 || 0xE000 <= n < 0x110000 }

  function CharOf(code: Option<int>): char {
    if code.Some? && Scalar(code.value) then code.value as char else Replacement
  }

  function DecodeAll(b: seq<Byte>): string
    decreases |b|
  {
    if b == [] then ""
    else
      var d := DecodeFirst(b);
      [CharOf(d.code)] + DecodeAll(b[d.used..])
  }

  const Bom := 0xFEFF as char

  /** TextDecoder: malformed input becomes replacement characters, a leading byte order mark is dropped. */
  function DecodeText(b: seq<Byte>): string {
    DecodeAll(if |b| >= 3 && b[0] == 0xEF && b[1] == 0xBB && b[2] == 0xBF then b[3..] else b)
  }

  lemma DecodeChar(c: char, rest: seq<Byte>)
    ensures DecodeFirst(Utf8Char(c) + rest) == Decoded(Some(c as int), |Utf8Char(c)|)
  {
    var n := c as int;
    var b := Utf8Char(c) + rest;
    if n < 0x80 {
    } else if n < 0x800 {
      assert b[1] == 0x80 + n % 64;
      assert Continue(b, 2, 0, n, 0x80, 0xBF) == Decoded(Some(n), 2);
    } else if n < 0x10000 {
      ThreeBytes(n, b);
    } else {
      FourBytes(n, b);
    }
  }

  lemma ThreeBytes(n: nat, b: seq<Byte>)
    requires 0x800 <= n < 0x10000 && Scalar(n) && |b| >= 3
    requires b[0] == 0xE0 + n / 4096 && b[1] == 0x80 + n / 64 % 64 && b[2] == 0x80 + n % 64
    ensures DecodeFirst(b) == Decoded(Some(n), 3)
  {
    var x := n / 4096;
    var y := x * 64 + n / 64 % 64;
    assert y == n / 64 && y * 64 + n % 64 == n;
    assert b[1] % 64 == n / 64 % 64 && b[2] % 64 == n % 64;
    assert Continue(b, 3, 0, n, 0x80, 0xBF) == Decoded(Some(n), 3);
    assert Continue(b, 2, 1, y, 0x80, 0xBF) == Decoded(Some(n), 3);
  }

  lemma FourBytes(n: nat, b: seq<Byte>)
    requires 0x10000 <= n < 0x110000 && |b| >= 4
    requires b[0] == 0xF0 + n / 262144 && b[1] == 0x80 + n / 4096 % 64
    requires b[2] == 0x80 + n / 64 % 64 && b[3] == 0x80 + n % 64
    ensures DecodeFirst(b) == Decoded(Some(n), 4)
  {
    var x := n / 262144;
    var y := x * 64 + n / 4096 % 64;
    var z := y * 64 + n / 64 % 64;
    FourParts(n);
    assert Continue(b, 4, 0, n, 0x80, 0xBF) == Decoded(Some(n), 4);
    assert Continue(b, 3, 1, z, 0x80, 0xBF) == Decoded(Some(n), 4);
    assert Continue(b, 2, 2, y, 0x80, 0xBF) == Decoded(Some(n), 4);
  }

  lemma FourParts(n: nat)
    ensures n / 262144 * 64 + n / 4096 % 64 == n / 4096 && n / 4096 * 64 + n / 64 % 64 == n / 64
      && n / 64 * 64 + n % 64 == n
    ensures (0x80 + n / 4096 % 64) % 64 == n / 4096 % 64 && (0x80 + n / 64 % 64) % 64 == n / 64 % 64
    ensures (0x80 + n % 64) % 64 == n % 64
  {
  }

  lemma {:induction false} DecodeUtf8(s: string)
    ensures DecodeAll(Utf8(s)) == s
  {
    hide Utf8Char, DecodeFirst;
    if s != "" {
      var c, rest := s[0], Utf8(s[1..]);
      DecodeChar(c, rest);
      CharIsScalar(c);
      assert (Utf8Char(c) + rest)[|Utf8Char(c)|..] == rest;
      DecodeUtf8(s[1..]);
      NonEmptyChar(c);
    }
  }

  lemma CharIsScalar(c: char)
    ensures Scalar(c as int) && CharOf(Some(c as int)) == c
  {
  }

  lemma NonEmptyChar(c: char)
    ensures Utf8Char(c) != []
  {
  }

  /** The byte order mark is the only character encoded with these three bytes. */
  lemma BomBytes(s: string)
    ensures var b := Utf8(s);
      (|b| >= 3 && b[0] == 0xEF && b[1] == 0xBB && b[2] == 0xBF) <==> (s != "" && s[0] == Bom)
  {
    if s != "" {
      var c, rest := s[0], Utf8(s[1..]);
      DecodeChar(c, rest);
      var b := Utf8(s);
      assert b == Utf8Char(c) + rest;
      if |b| >= 3 && b[0] == 0xEF && b[1] == 0xBB && b[2] == 0xBF {
        ThreeBytes(0xFEFF, b);
      }
    }
  }

  /** Decoding undoes encoding, but for a leading byte order mark. */
  lemma TextRoundTrip(s: string)
    ensures DecodeText(Utf8(s)) == if s != "" && s[0] == Bom then s[1..] else s
  {
    hide Utf8Char, DecodeFirst, DecodeAll;
    BomBytes(s);
    DecodeUtf8(s);
    if s != "" && s[0] == Bom {
      BomLength();
      assert Utf8(s)[3..] == Utf8(s[1..]);
      DecodeUtf8(s[1..]);
    }
  }

  lemma BomLength()
    ensures |Utf8Char(Bom)| == 3
  {
  }

  // ---- percent-encoding ----------------------------------------------------------------------

  predicate Unreserved(c: char) {
    'A' <= c <= 'Z' || 'a' <= c <= 'z' || '0' <= c <= '9' || c in {'-', '_', '.', '!', '~', '*', '\'', '(', ')'}
  }

  function HexDigit(n: nat): (c: char)
    requires n < 16
    ensures HexValue(c) == Some(n)
  {
    if n < 10 then ('0' as int + n) as char else ('A' as int + (n - 10)) as char
  }

  function HexValue(c: char): Option<nat> {
    if '0' <= c <= '9' then Some(c as int - '0' as int)
    else if 'A' <= c <= 'F' then Some(c as int - 'A' as int + 10)
    else if 'a' <= c <= 'f' then Some(c as int - 'a' as int + 10)
    else None
  }

  function Percent(b: seq<Byte>): (s: string)
    ensures |s| == 3 * |b|
  {
    if b == [] then "" else ['%', HexDigit(b[0] / 16), HexDigit(b[0] % 16)] + Percent(b[1..])
  }

  /** encodeURIComponent. */
  function EncodeURIComponent(s: string): string {
    if s == "" then ""
    else (if Unreserved(s[0]) then [s[0]] else Percent(Utf8Char(s[0]))) + EncodeURIComponent(s[1..])
  }

  function HexOctet(s: string): Option<Byte> {
    if |s| >= 3 && s[0] == '%' && HexValue(s[1]).Some? && HexValue(s[2]).Some? then
      HexValueRange(s[1]);
      HexValueRange(s[2]);
      Some(HexValue(s[1]).value * 16 + HexValue(s[2]).value)
    else None
  }

  lemma HexValueRange(c: char)
    ensures HexValue(c).Some? ==> HexValue(c).value < 16
  {
  }

  /** How many octets a lead byte announces; 0 when it is none. */
  function Announced(b: Byte): nat {
    if b < 0x80 then 1
    else if 0xC0 <= b < 0xE0 then 2
    else if 0xE0 <= b < 0xF0 then 3
    else if 0xF0 <= b < 0xF8 then 4
    else 0
  }

  function Octets(s: string, n: nat): Option<seq<Byte>>
    decreases n
  {
    if n == 0 then Some([])
    else if HexOctet(s).None? then None
    else
      match Octets(s[3..], n - 1)
      case None => None
      case Some(rest) => Some([HexOctet(s).value] + rest)
  }

  /** decodeURIComponent; None where it throws. */
  function DecodeURIComponent(s: string): Option<string>
    decreases |s|
  {
    if s == "" then Some("")
    else if s[0] != '%' then
      match DecodeURIComponent(s[1..])
      case None => None
      case Some(t) => Some([s[0]] + t)
    else
      match HexOctet(s)
      case None => None
      case Some(lead) =>
        var n := Announced(lead);
        match Octets(s, n)
        case None => None
        case Some(octets) =>
          if n == 0 || 3 * n > |s| || octets == [] || DecodeFirst(octets).code.None?
            || DecodeFirst(octets).used != n then None
          else
            match DecodeURIComponent(s[3 * n..])
            case None => None
            case Some(t) => Some([CharOf(DecodeFirst(octets).code)] + t)
  }

  lemma PercentTail(b: seq<Byte>, rest: string)
    requires b != []
    ensures (Percent(b) + rest)[3..] == Percent(b[1..]) + rest
  {
    hide HexDigit;
  }

  lemma {:induction false} OctetsOfPercent(b: seq<Byte>, rest: string)
    ensures Octets(Percent(b) + rest, |b|) == Some(b)
  {
    hide Percent, HexOctet;
    if b != [] {
      OctetsOfPercent(b[1..], rest);
      FirstOctet(b, rest);
      PercentTail(b, rest);
      assert [b[0]] + b[1..] == b;
    }
  }

  lemma AnnouncedByChar(c: char)
    ensures Utf8Char(c) != [] && Announced(Utf8Char(c)[0]) == |Utf8Char(c)|
  {
  }

  lemma UnreservedIsNoPercent(c: char)
    requires Unreserved(c)
    ensures c != '%' && c != '#'
  {
  }

  lemma EncodedChar(c: char, rest: string)
    requires DecodeURIComponent(rest).Some?
    ensures DecodeURIComponent(Percent(Utf8Char(c)) + rest) == Some([c] + DecodeURIComponent(rest).value)
  {
    hide Utf8Char, HexOctet, DecodeFirst, Announced;
    var b := Utf8Char(c);
    var s := Percent(b) + rest;
    AnnouncedByChar(c);
    OctetsOfPercent(b, rest);
    FirstOctet(b, rest);
    DecodeChar(c, []);
    assert b + [] == b;
    CharIsScalar(c);
    assert s[3 * |b|..] == rest;
  }

  lemma FirstOctet(b: seq<Byte>, rest: string)
    requires b != []
    ensures HexOctet(Percent(b) + rest) == Some(b[0]) && (Percent(b) + rest)[0] == '%'
  {
    hide HexDigit, HexValue;
    var s := Percent(b) + rest;
    assert s[0] == '%' && s[1] == HexDigit(b[0] / 16) && s[2] == HexDigit(b[0] % 16);
  }

  /** Decoding undoes percent-encoding, for every string. */
  lemma {:induction false} PercentRoundTrip(s: string)
    ensures DecodeURIComponent(EncodeURIComponent(s)) == Some(s)
  {
    hide Unreserved, Utf8Char, Percent;
    if s != "" {
      PercentRoundTrip(s[1..]);
      var rest := EncodeURIComponent(s[1..]);
      assert s == [s[0]] + s[1..];
      if Unreserved(s[0]) {
        UnreservedIsNoPercent(s[0]);
        assert ([s[0]] + rest)[1..] == rest;
      } else {
        EncodedChar(s[0], rest);
      }
    }
  }
}
