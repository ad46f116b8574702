/**
 The other links parseShadowsocks reads (docs/lib/xray/links.ts): the legacy form, plain user
 information and queries; and the published vectors of the codecs underneath.
 */
module ShareForms {
  import opened Prelude
  import opened Text
  import opened ShareBytes
  import opened ShareLink

  // ---- the codecs, by their standards ----------------------------------------------------

  /** Table 1 of RFC 4648: A to Z, a to z, 0 to 9, plus and slash. */
  lemma AlphabetIs(n: Sextet)
    ensures n < 26 ==> Symbol(n) as int == 'A' as int + n
    ensures 26 <= n < 52 ==> Symbol(n) as int == 'a' as int + n - 26
    ensures 52 <= n < 62 ==> Symbol(n) as int == '0' as int + n - 52
    ensures Symbol(62) == '+' && Symbol(63) == '/'
  {
  }

  lemma ShortVectors()
    ensures Body([0x66]) == "Zg" && Body([0x66, 0x6F]) == "Zm8" && Body([0x62]) == "Yg" && Body([0x62, 0x61]) == "YmE"
    ensures Repeat('=', 0) == "" && Repeat('=', 1) == "=" && Repeat('=', 2) == "=="
  {
  }

  lemma ThreeMore(x: Byte, y: Byte, z: Byte, rest: seq<Byte>)
    ensures Body([x, y, z] + rest)
      == [Symbol(x / 4), Symbol((x % 4) * 16 + y / 16), Symbol((y % 16) * 4 + z / 64), Symbol(z % 64)] + Body(rest)
  {
    hide Symbol;
    assert ([x, y, z] + rest)[3..] == rest;
  }

  lemma FooSymbols()
    ensures [Symbol(0x66 / 4), Symbol((0x66 % 4) * 16 + 0x6F / 16), Symbol((0x6F % 16) * 4 + 0x6F / 64),
             Symbol(0x6F % 64)] == "Zm9v"
  {
  }

  lemma BarSymbols()
    ensures [Symbol(0x62 / 4), Symbol((0x62 % 4) * 16 + 0x61 / 16), Symbol((0x61 % 16) * 4 + 0x72 / 64),
             Symbol(0x72 % 64)] == "YmFy"
  {
  }

  lemma FooBar(foo: seq<Byte>, bar: seq<Byte>, rest: seq<Byte>)
    requires foo == [0x66, 0x6F, 0x6F] && bar == [0x62, 0x61, 0x72]
    ensures Body(foo + rest) == "Zm9v" + Body(rest) && Body(bar + rest) == "YmFy" + Body(rest)
  {
    hide Body, Symbol;
    FooSymbols();
    BarSymbols();
    ThreeMore(0x66, 0x6F, 0x6F, rest);
    ThreeMore(0x62, 0x61, 0x72, rest);
  }

  /** The test vectors of section 10 of RFC 4648. */
  lemma Base64Vectors()
    ensures Btoa([]) == ""
    ensures Btoa([0x66]) == "Zg=="
    ensures Btoa([0x66, 0x6F]) == "Zm8="
    ensures Btoa([0x66, 0x6F, 0x6F]) == "Zm9v"
    ensures Btoa([0x66, 0x6F, 0x6F, 0x62]) == "Zm9vYg=="
    ensures Btoa([0x66, 0x6F, 0x6F, 0x62, 0x61]) == "Zm9vYmE="
    ensures Btoa([0x66, 0x6F, 0x6F, 0x62, 0x61, 0x72]) == "Zm9vYmFy"
  {
    hide Body, Repeat;
    var foo: seq<Byte>, bar: seq<Byte> := [0x66, 0x6F, 0x6F], [0x62, 0x61, 0x72];
    assert foo + [] == foo && bar + [] == bar;
    assert foo + [0x62] == [0x66, 0x6F, 0x6F, 0x62] && foo + [0x62, 0x61] == [0x66, 0x6F, 0x6F, 0x62, 0x61];
    assert foo + bar == [0x66, 0x6F, 0x6F, 0x62, 0x61, 0x72];
    ShortVectors();
    EmptyBody();
    FooBar(foo, bar, []);
    FooBar(foo, bar, [0x62]);
    FooBar(foo, bar, [0x62, 0x61]);
    FooBar(foo, bar, bar);
    Padding();
  }

  lemma EmptyBody()
    ensures Body([]) == ""
  {
  }

  /** The texts the vectors are made of. */
  lemma Padding()
    ensures "Zg" + "==" == "Zg==" && "Zm8" + "=" == "Zm8=" && "Zm9v" + "" + "" == "Zm9v" && "YmFy" + "" == "YmFy"
    ensures "Zm9v" + "Yg" + "==" == "Zm9vYg==" && "Zm9v" + "YmE" + "=" == "Zm9vYmE="
    ensures "Zm9v" + "YmFy" + "" == "Zm9vYmFy"
  {
  }

  /** The two symbols of the URL-safe alphabet of section 5 of RFC 4648, and no padding. */
  lemma UrlVector()
    ensures Btoa([0xFB, 0xFF]) == "+/8=" && BytesToBase64Url([0xFB, 0xFF]) == "-_8"
  {
    assert Repeat('=', 1) == "=";
    UrlIsBody([0xFB, 0xFF]);
    assert Body([0xFB, 0xFF]) == "+/8";
  }

  /** One character of each length, as in section 7 of RFC 3629: an ASCII one, e acute, the euro sign and U+1F600. */
  lemma Utf8Vectors()
    ensures Utf8Char('A') == [0x41] && Utf8Char(0xE9 as char) == [0xC3, 0xA9]
    ensures Utf8Char(0x20AC as char) == [0xE2, 0x82, 0xAC] && Utf8Char(0x1F600 as char) == [0xF0, 0x9F, 0x98, 0x80]
  {
  }

  /** A character is left as it is exactly when it is a letter, a digit or one of - _ . ! ~ * ' ( and ). */
  lemma PercentVectors(c: char)
    ensures EncodeURIComponent([c]) == [c] <==>
      'A' <= c <= 'Z' || 'a' <= c <= 'z' || '0' <= c <= '9' || c in {'-', '_', '.', '!', '~', '*', '\'', '(', ')'}
    ensures EncodeURIComponent(" ") == "%20" && EncodeURIComponent("/") == "%2F"
  {
    hide Utf8Char;
    AsciiChars();
    assert EncodeURIComponent([c]) == (if Unreserved(c) then [c] else Percent(Utf8Char(c))) + "";
    NonEmptyChar(c);
  }

  lemma AsciiChars()
    ensures Utf8Char(' ') == [0x20] && Utf8Char('/') == [0x2F]
    ensures Percent([0x20]) == "%20" && Percent([0x2F]) == "%2F"
  {
  }

  // ---- what is built -----------------------------------------------------------------------

  /** A built link: scheme, base64url of method and password, host with brackets around colons, port, and name. */
  lemma BuiltLink(input: Input)
    ensures BuildShadowsocks(input) == "ss://" + BytesToBase64Url(Utf8(input.method_ + ":" + input.password)) + "@"
      + (if ':' in input.address then "[" + input.address + "]" else input.address) + ":" + Itoa(input.port)
      + (if input.name == "" then "" else "#" + EncodeURIComponent(input.name))
  {
    hide BytesToBase64Url, Utf8, Itoa, EncodeURIComponent;
  }

  // ---- queries -----------------------------------------------------------------------------

  lemma SearchStops(head: string, tail: string)
    requires '/' !in head && '?' !in head && tail != "" && (tail[0] == '/' || tail[0] == '?')
    ensures SearchQuery(head + tail) == |head|
  {
    hide SearchQuery;
    var s, k := head + tail, SearchQuery(head + tail);
    assert s[|head|] == tail[0];
    assert forall i :: 0 <= i < |head| ==> s[i] == head[i];
    assert forall i :: 0 <= i < k ==> s[..k][i] == s[i];
  }

  /** Host and port come back with whatever query follows, without its leading slash and question mark. */
  lemma QueryBack(address: string, port: nat, mark: string, query: string)
    requires GoodAddress(address) && mark in {"?", "/?", "/"} && (mark == "/" ==> query == "" || query[0] != '?')
    ensures ParseHostPortQuery(HostText(address) + ":" + Itoa(port) + (mark + query)) == Some((address, port, query))
  {
    hide Itoa, MatchHostPort, SearchQuery, GoodAddress, StripBrackets, HostText, DigitsValue;
    DigitsClean(port);
    HostTextClean(address);
    var head := HostText(address) + ":" + Itoa(port);
    SearchStops(head, mark + query);
    var s := head + (mark + query);
    assert s[..|head|] == head && s[|head|..] == mark + query;
    MatchGoodHost(address, Itoa(port));
    QueryAfter(mark, query);
  }

  lemma QueryAfter(mark: string, query: string)
    requires mark in {"?", "/?", "/"} && (mark == "/" ==> query == "" || query[0] != '?')
    ensures QueryText(mark + query) == query
  {
    assert (mark + query)[1..] == mark[1..] + query;
    assert mark == "/?" ==> (mark + query)[1..][1..] == query;
  }

  // ---- the legacy form -------------------------------------------------------------------------

  /** ss://base64(credential@host:port)#name. */
  function LegacyLink(credential: string, address: string, port: nat, name: string): string {
    "ss://" + UserInfo(LegacyText(credential, address, port)) + Fragment(name)
  }

  function LegacyText(credential: string, address: string, port: nat): string {
    credential + "@" + HostText(address) + ":" + Itoa(port)
  }

  lemma LinkParts(body: string, name: string)
    requires '#' !in body
    ensures LinkBody("ss://" + body + Fragment(name)) == body && LinkName("ss://" + body + Fragment(name)) == name
  {
    hide EncodeURIComponent, IndexOf, DecodeURIComponent;
    var link, fragment := "ss://" + body + Fragment(name), Fragment(name);
    assert link[5..] == body + fragment;
    IndexAt(body + fragment, '#', |body|);
    assert (body + fragment)[..|body|] == body;
    if name != "" {
      assert (body + fragment)[|body| + 1..] == EncodeURIComponent(name);
      PercentRoundTrip(name);
    }
  }

  lemma LegacyDecodes(text: string)
    requires !StartsWithBom(text)
    ensures Base64ToText(UserInfo(text)) == Some(text)
  {
    hide Base64ToBytes, BytesToBase64Url, Utf8, DecodeText;
    Base64UrlRoundTrip(Utf8(text));
    TextRoundTrip(text);
  }

  /** A legacy link gives back its credential, even one with an '@', and its address, port and name. */
  lemma LegacyBack(credential: string, address: string, port: nat, name: string)
    requires GoodAddress(address) && !StartsWithBom(LegacyText(credential, address, port))
    ensures ParseShadowsocks(LegacyLink(credential, address, port, name))
      == Some(ParsedLink(name, address, port, credential, ""))
  {
    hide UserInfo, Itoa, HostText, LastIndexOf, LinkBody, LinkName, TryBase64, ParseHostPortQuery, Base64ToText,
      GoodAddress, StartsWithBom, Fragment;
    var text, back := LegacyText(credential, address, port), HostText(address) + ":" + Itoa(port);
    UserInfoClean(text);
    LinkParts(UserInfo(text), name);
    LegacyDecodes(text);
    HostTextClean(address);
    DigitsClean(port);
    assert text == credential + ['@'] + back;
    LastAt(credential, '@', back);
    assert text[..|credential|] == credential && text[|credential| + 1..] == back;
    HostPortBack(address, port);
  }

  // ---- plain user information --------------------------------------------------------------------

  lemma {:induction false} PlainDecodes(s: string)
    requires '%' !in s
    ensures DecodeURIComponent(s) == Some(s)
  {
    hide HexOctet, Octets, Announced;
    if s != "" {
      PlainDecodes(s[1..]);
      assert [s[0]] + s[1..] == s;
    }
  }

  lemma EncodeStep(a: string)
    requires a != ""
    ensures EncodeURIComponent(a)
      == (if Unreserved(a[0]) then [a[0]] else Percent(Utf8Char(a[0]))) + EncodeURIComponent(a[1..])
  {
    hide Unreserved, Percent, Utf8Char;
  }

  lemma DecodeStep(c: char, more: string)
    requires c != '%' && DecodeURIComponent(more).Some?
    ensures DecodeURIComponent([c] + more) == Some([c] + DecodeURIComponent(more).value)
  {
    hide HexOctet, Octets, Announced;
    assert ([c] + more)[1..] == more;
  }

  /** Decoding an encoded text and something decodable after it. */
  lemma {:induction false} EncodedThen(a: string, rest: string)
    requires DecodeURIComponent(rest).Some?
    ensures DecodeURIComponent(EncodeURIComponent(a) + rest) == Some(a + DecodeURIComponent(rest).value)
  {
    hide Unreserved, Utf8Char, Percent, EncodeURIComponent, DecodeURIComponent;
    var t := DecodeURIComponent(rest).value;
    if a == "" {
      NothingEncoded();
      assert "" + rest == rest && "" + t == t;
    } else {
      EncodedThen(a[1..], rest);
      EncodeStep(a);
      var first, more := a[0], EncodeURIComponent(a[1..]) + rest;
      assert [first] + (a[1..] + t) == a + t;
      if Unreserved(first) {
        UnreservedIsNoPercent(first);
        DecodeStep(first, more);
        assert EncodeURIComponent(a) + rest == [first] + more;
      } else {
        EncodedChar(first, more);
        assert EncodeURIComponent(a) + rest == Percent(Utf8Char(first)) + more;
      }
    }
  }

  lemma NothingEncoded()
    ensures EncodeURIComponent("") == ""
  {
  }

  lemma ColonThen(password: string)
    ensures DecodeURIComponent(":" + EncodeURIComponent(password)) == Some(":" + password)
  {
    hide EncodeURIComponent, HexOctet, Octets, Announced;
    PercentRoundTrip(password);
    var s := ":" + EncodeURIComponent(password);
    assert s[1..] == EncodeURIComponent(password);
  }

  lemma {:induction false} EncodedIsClean(s: string)
    ensures '@' !in EncodeURIComponent(s) && '#' !in EncodeURIComponent(s) && ':' !in EncodeURIComponent(s)
  {
    hide Percent, Utf8Char;
    if s != "" {
      EncodedIsClean(s[1..]);
      PercentIsClean(Utf8Char(s[0]));
    }
  }

  lemma {:induction false} PercentIsClean(b: seq<Byte>)
    ensures '@' !in Percent(b) && '#' !in Percent(b) && ':' !in Percent(b)
  {
    if b != [] {
      PercentIsClean(b[1..]);
    }
  }

  /** A link with method and password percent-encoded around a colon. */
  function PlainLink(method_: string, password: string, address: string, port: nat, name: string): string {
    "ss://" + (PlainInfo(method_, password) + "@" + (HostText(address) + ":" + Itoa(port))) + Fragment(name)
  }

  function PlainInfo(method_: string, password: string): string {
    EncodeURIComponent(method_) + (":" + EncodeURIComponent(password))
  }

  /** It gives back method, password, address, port and name, whatever method, password and name hold. */
  lemma PlainBack(method_: string, password: string, address: string, port: nat, name: string)
    requires GoodAddress(address)
    ensures ParseShadowsocks(PlainLink(method_, password, address, port, name))
      == Some(ParsedLink(name, address, port, method_ + ":" + password, ""))
  {
    hide Itoa, HostText, LastIndexOf, LinkBody, LinkName, TryBase64, ParseHostPortQuery, Base64ToText, PlainInfo,
      GoodAddress, Fragment, EncodeURIComponent, DecodeURIComponent;
    var user, back := PlainInfo(method_, password), HostText(address) + ":" + Itoa(port);
    InfoIs(method_, password);
    HostTextClean(address);
    DigitsClean(port);
    var body := user + "@" + back;
    assert body == user + ['@'] + back;
    LinkParts(body, name);
    LastAt(user, '@', back);
    assert body[|user|] == '@' && body[..|user|] == user && body[|user| + 1..] == back;
    HostPortBack(address, port);
    assert method_ + (":" + password) == method_ + ":" + password;
  }

  lemma InfoIs(method_: string, password: string)
    ensures var user := PlainInfo(method_, password);
      ':' in user && '@' !in user && '#' !in user && SafeDecode(user) == method_ + (":" + password)
  {
    hide EncodeURIComponent, DecodeURIComponent;
    EncodedIsClean(method_);
    EncodedIsClean(password);
    ColonThen(password);
    EncodedThen(method_, ":" + EncodeURIComponent(password));
    assert (":" + EncodeURIComponent(password))[0] == ':';
  }

  // ---- what does not decode ------------------------------------------------------------------------

  /** A name that is no percent-encoding is taken as it is. */
  lemma MalformedNameStays(body: string, name: string)
    requires '#' !in body && DecodeURIComponent(name).None?
    ensures LinkName("ss://" + body + "#" + name) == name && LinkBody("ss://" + body + "#" + name) == body
  {
    hide DecodeURIComponent, IndexOf;
    var link := "ss://" + body + "#" + name;
    assert link[5..] == body + "#" + name;
    var rest := body + "#" + name;
    assert rest[|body|] == '#' && rest[..|body|] == body && rest[|body| + 1..] == name;
    IndexAt(rest, '#', |body|);
  }

  /** Such as a lone percent sign, or one before a letter that is no hexadecimal digit. */
  lemma MalformedNames()
    ensures DecodeURIComponent("%").None? && DecodeURIComponent("%4").None? && DecodeURIComponent("%G1").None?
    ensures DecodeURIComponent("%FF").None?
  {
    assert HexOctet("%FF") == Some(255);
  }

  /** A code with six more bits. */
  function Longer(code: int, y: int): int { code * 64 + y % 64 }

  lemma LongerParts(code: nat, y: int)
    ensures Longer(code, y) / 64 == code && Longer(code, y) % 64 == y % 64 && Longer(code, y) >= 0
  {
  }

  lemma Quotients(n: nat)
    ensures n / 4096 == n / 64 / 64 && n / 262144 == n / 64 / 64 / 64
  {
  }

  lemma TwoBytesBack(x: Byte, y: Byte)
    requires 0xC2 <= x <= 0xDF && 0x80 <= y <= 0xBF
    ensures var n := Longer(x as int - 0xC0, y); 0x80 <= n < 0x800 && Utf8Char(n as char) == [x, y]
  {
    LongerParts(x as int - 0xC0, y);
  }

  lemma ThreeBytesBack(x: Byte, y: Byte, z: Byte)
    requires 0xE0 <= x <= 0xEF && 0x80 <= y <= 0xBF && 0x80 <= z <= 0xBF
    requires (x == 0xE0 ==> 0xA0 <= y) && (x == 0xED ==> y <= 0x9F)
    ensures var n := Longer(Longer(x as int - 0xE0, y), z);
      0x800 <= n < 0x10000 && Scalar(n) && Utf8Char(n as char) == [x, y, z]
  {
    LongerParts(x as int - 0xE0, y);
    LongerParts(Longer(x as int - 0xE0, y), z);
    Quotients(Longer(Longer(x as int - 0xE0, y), z));
  }

  lemma FourBytesBack(x: Byte, y: Byte, z: Byte, w: Byte)
    requires 0xF0 <= x <= 0xF4 && 0x80 <= y <= 0xBF && 0x80 <= z <= 0xBF && 0x80 <= w <= 0xBF
    requires (x == 0xF0 ==> 0x90 <= y) && (x == 0xF4 ==> y <= 0x8F)
    ensures var n := Longer(Longer(Longer(x as int - 0xF0, y), z), w);
      0x10000 <= n < 0x110000 && Utf8Char(n as char) == [x, y, z, w]
  {
    var k := Longer(x as int - 0xF0, y);
    LongerParts(x as int - 0xF0, y);
    LongerParts(k, z);
    LongerParts(Longer(k, z), w);
    FourRange(k, z, w);
    FourParted(Longer(Longer(k, z), w), x, y, z, w);
  }

  lemma FourRange(k: int, z: int, w: int)
    requires 16 <= k < 272
    ensures 0x10000 <= Longer(Longer(k, z), w) < 0x110000
  {
  }

  lemma FourParted(n: nat, x: Byte, y: Byte, z: Byte, w: Byte)
    requires 0x10000 <= n < 0x110000
    requires 0x80 <= y <= 0xBF && 0x80 <= z <= 0xBF && 0x80 <= w <= 0xBF
    requires n % 64 == w % 64 && n / 64 % 64 == z % 64
    requires n / 64 / 64 % 64 == y % 64 && n / 64 / 64 / 64 == x as int - 0xF0
    ensures Utf8Char(n as char) == [x, y, z, w]
  {
    Quotients(n);
  }

  /** One step that finds a character has read exactly that character's bytes. */
  lemma FirstIsExact(b: seq<Byte>)
    requires b != [] && DecodeFirst(b).code.Some?
    ensures var d := DecodeFirst(b); Scalar(d.code.value) && Utf8Char(d.code.value as char) == b[..d.used]
  {
    var x := b[0];
    if x < 0x80 {
      assert b[..1] == [x];
    } else if 0xC2 <= x <= 0xDF {
      ContinueOne(b);
      TwoBytesBack(x, b[1]);
      assert b[..2] == [x, b[1]];
    } else if 0xE0 <= x <= 0xEF {
      ContinueTwo(b);
      ThreeBytesBack(x, b[1], b[2]);
      assert b[..3] == [x, b[1], b[2]];
    } else {
      ContinueThree(b);
      FourBytesBack(x, b[1], b[2], b[3]);
      assert b[..4] == [x, b[1], b[2], b[3]];
    }
  }

  lemma ContinueOne(b: seq<Byte>)
    requires b != [] && 0xC2 <= b[0] <= 0xDF && DecodeFirst(b).code.Some?
    ensures |b| >= 2 && 0x80 <= b[1] <= 0xBF && DecodeFirst(b).code == Some(Longer(b[0] as int - 0xC0, b[1]))
    ensures DecodeFirst(b).used == 2
  {
  }

  lemma ContinueTwo(b: seq<Byte>)
    requires b != [] && 0xE0 <= b[0] <= 0xEF && DecodeFirst(b).code.Some?
    ensures |b| >= 3 && 0x80 <= b[1] <= 0xBF && 0x80 <= b[2] <= 0xBF
    ensures (b[0] == 0xE0 ==> 0xA0 <= b[1]) && (b[0] == 0xED ==> b[1] <= 0x9F)
    ensures DecodeFirst(b).code == Some(Longer(Longer(b[0] as int - 0xE0, b[1]), b[2])) && DecodeFirst(b).used == 3
  {
    assert Continue(b, 2, 1, Longer(b[0] as int - 0xE0, b[1]), 0x80, 0xBF).code.Some?;
  }

  lemma ContinueThree(b: seq<Byte>)
    requires b != [] && 0xF0 <= b[0] && DecodeFirst(b).code.Some?
    ensures |b| >= 4 && b[0] <= 0xF4 && 0x80 <= b[1] <= 0xBF && 0x80 <= b[2] <= 0xBF && 0x80 <= b[3] <= 0xBF
    ensures (b[0] == 0xF0 ==> 0x90 <= b[1]) && (b[0] == 0xF4 ==> b[1] <= 0x8F)
    ensures DecodeFirst(b).code == Some(Longer(Longer(Longer(b[0] as int - 0xF0, b[1]), b[2]), b[3]))
    ensures DecodeFirst(b).used == 4
  {
    var y := Longer(b[0] as int - 0xF0, b[1]);
    assert Continue(b, 2, 2, y, 0x80, 0xBF).code.Some?;
    assert Continue(b, 3, 1, Longer(y, b[2]), 0x80, 0xBF).code.Some?;
  }

  /** Text decoded without a replacement character encodes to the very bytes it came from. */
  lemma {:induction false} DecodingIsExact(b: seq<Byte>)
    requires Replacement !in DecodeAll(b)
    ensures Utf8(DecodeAll(b)) == b
    decreases |b|
  {
    hide DecodeFirst, Utf8Char;
    if b != [] {
      var d := DecodeFirst(b);
      var c, rest := CharOf(d.code), b[d.used..];
      assert DecodeAll(b) == [c] + DecodeAll(rest) && DecodeAll(b)[0] == c && DecodeAll(b)[1..] == DecodeAll(rest);
      assert forall i :: 0 <= i < |DecodeAll(rest)| ==> DecodeAll(rest)[i] == DecodeAll(b)[i + 1];
      FirstIsExact(b);
      DecodingIsExact(rest);
      assert b == b[..d.used] + rest;
    }
  }

  /** Base64 text of a length no bytes have, or with a foreign character, is refused. */
  lemma AtobRefuses(s: string, a: string, c: char, b: string)
    ensures AllSymbols(s) && |s| % 4 == 1 ==> Atob(s).None?
    ensures !IsSymbol(c) && c != '=' && !AsciiSpace(c) ==> Atob(a + [c] + b).None?
  {
    hide IsSymbol, AsciiSpace, Unpack;
    if AllSymbols(s) {
      forall i | 0 <= i < |s|
        ensures !AsciiSpace(s[i])
      {
        SymbolIsPlain(s[i]);
      }
      WithoutNothing(s, AsciiSpace);
    }
    if !IsSymbol(c) && c != '=' && !AsciiSpace(c) {
      WithoutKeeps(a, c, b);
      var t := Without(a + [c] + b, AsciiSpace);
      StripKeeps(t, c);
    }
  }

  lemma {:induction false} WithoutKeeps(a: string, c: char, b: string)
    requires !AsciiSpace(c)
    ensures c in Without(a + [c] + b, AsciiSpace)
    decreases |a|
  {
    hide AsciiSpace;
    if a == "" {
      assert "" + [c] + b == [c] + b && ([c] + b)[0] == c;
    } else {
      WithoutKeeps(a[1..], c, b);
      assert (a + [c] + b)[1..] == a[1..] + [c] + b;
    }
  }

  lemma StripKeeps(t: string, c: char)
    requires c in t && c != '='
    ensures c in StripEquals(t)
  {
    var i :| 0 <= i < |t| && t[i] == c;
    assert i < |StripEquals(t)| ==> StripEquals(t)[i] == c;
  }

  /** Broken UTF-8 becomes replacement characters: a lead byte alone, and one for each byte of a surrogate. */
  lemma BrokenText()
    ensures DecodeText([0xC3]) == [Replacement] && DecodeText([0xFF, 0x41]) == [Replacement, 'A']
    ensures DecodeText([0xE2, 0x82]) == [Replacement]
  {
    assert DecodeAll([]) == "";
    var one: seq<Byte>, two: seq<Byte>, three: seq<Byte> := [0xC3], [0xFF, 0x41], [0xE2, 0x82];
    assert one[1..] == [] && two[1..] == [0x41] && three[2..] == [];
    assert DecodeFirst(three) == Decoded(None, 2);
    assert DecodeAll([0x41]) == ['A'] + DecodeAll([0x41][1..]);
  }

  /** White space inside base64 text is passed over. */
  lemma {:induction false} SpacePassed(a: string, c: char, b: string)
    requires JsSpace(c)
    ensures Without(a + [c] + b, JsSpace) == Without(a + b, JsSpace)
    decreases |a|
  {
    hide JsSpace;
    if a == "" {
      assert "" + [c] + b == [c] + b && ([c] + b)[1..] == b && "" + b == b;
    } else {
      SpacePassed(a[1..], c, b);
      assert (a + [c] + b)[1..] == a[1..] + [c] + b && (a + b)[1..] == a[1..] + b;
    }
  }

  lemma SpacesIgnored(a: string, c: char, b: string)
    requires JsSpace(c)
    ensures Base64ToBytes(a + [c] + b) == Base64ToBytes(a + b)
  {
    hide Atob, JsSpace, Normal, Without;
    SpaceIsNormal(c);
    assert Map(a + [c] + b, Normal) == Map(a, Normal) + [c] + Map(b, Normal);
    assert Map(a + b, Normal) == Map(a, Normal) + Map(b, Normal);
    SpacePassed(Map(a, Normal), c, Map(b, Normal));
  }

  /** White space as JavaScript's regular expressions have it: Go's, with U+FEFF and without U+0085. */
  lemma SpacesAre(c: char)
    ensures c in {' ', '\t', '\n', '\r'} ==> JsSpace(c)
    ensures c as int in {0x0B, 0x0C, 0xA0, 0x2028, 0x2029, 0x3000, 0xFEFF} ==> JsSpace(c)
    ensures c as int == 0x85 || '!' <= c <= '~' ==> !JsSpace(c)
  {
  }

  lemma SpaceIsNormal(c: char)
    requires JsSpace(c)
    ensures Normal(c) == c
  {
  }

  /** The standard form, padded, is decoded as the URL-safe one is. */
  lemma StandardDecodes(b: seq<Byte>)
    ensures Base64ToBytes(Btoa(b)) == Some(b)
  {
    hide Body, IsSymbol, Normal, JsSpace, Atob, AllSymbols;
    var s := Btoa(b);
    BodySymbols(b);
    EqualsIsNormal();
    forall i | 0 <= i < |s|
      ensures Normal(s[i]) == s[i] && !JsSpace(s[i])
    {
      if i < |Body(b)| {
        assert s[i] == Body(b)[i];
        SymbolIsPlain(Body(b)[i]);
      }
    }
    assert Map(s, Normal) == s;
    WithoutNothing(s, JsSpace);
    BodyLength(b);
    PaddedLength(|Body(b)|, |b|, (3 - |b| % 3) % 3);
    AtobBody(b);
    WholeLength(|s|);
    assert s + Repeat('=', 0) == s;
  }

  lemma WholeLength(n: nat)
    requires n % 4 == 0
    ensures (n + 3) / 4 * 4 - n == 0
  {
  }

  lemma EqualsIsNormal()
    ensures Normal('=') == '=' && !JsSpace('=')
  {
  }
}
