/**
 Shadowsocks share links (docs/lib/xray/links.ts): the builder, the parser with its two forms,
 and exactly which inputs come back.  Hosts with a colon are bracketed as in section 3.2.2 of RFC 3986.
 */
module ShareLink {
  import opened Prelude
  import opened Text
  import opened ShareBytes

  const MaxSafe := 0x1F_FFFF_FFFF_FFFF

  /** A JavaScript number that prints as its decimal digits. */
  type SafeNat = x: int | 0 <= x <= MaxSafe witness 0

  datatype Input = Input(method_: string, password: string, address: string, port: SafeNat, name: string)

  datatype ParsedLink = ParsedLink(name: string, address: string, port: nat, credential: string, query: string)

  // ---- helpers of the parser --------------------------------------------------------

  function StripBrackets(host: string): string {
    var h := if host != "" && host[0] == '[' then host[1..] else host;
    if h != "" && h[|h| - 1] == ']' then h[..|h| - 1] else h
  }

  function SafeDecode(value: string): string {
    match DecodeURIComponent(value)
    case Some(t) => t
    case None => value
  }

  function Base64ToText(b64: string): Option<string> {
    match Base64ToBytes(b64)
    case Some(b) => Some(DecodeText(b))
    case None => None
  }

  function TryBase64(value: string): string {
    match Base64ToText(value)
    case Some(decoded) => if ':' in decoded then decoded else value
    case None => value
  }

  /** Index of the last c, or -1. */
  function LastIndexOf(s: string, c: char): (i: int)
    ensures -1 <= i < |s| && (i >= 0 ==> s[i] == c)
    ensures forall k :: i < k < |s| ==> s[k] != c
  {
    if s == "" then -1
    else if s[|s| - 1] == c then |s| - 1
    else LastIndexOf(s[..|s| - 1], c)
  }

  /** Index of the first '/' or '?', or the length. */
  function SearchQuery(s: string): (i: nat)
    ensures i <= |s| && '/' !in s[..i] && '?' !in s[..i]
    ensures i < |s| ==> s[i] == '/' || s[i] == '?'
  {
    if s == "" || s[0] == '/' || s[0] == '?' then 0
    else
      var i := 1 + SearchQuery(s[1..]);
      assert s[..i] == [s[0]] + s[1..][..i - 1];
      i
  }

  datatype HostPort = HostPort(host: string, digits: string)

  predicate PortDigits(s: string) { s != "" && AllDigits(s) }

  /** /^(\[[^\]]+\]|[^:]+):(\d+)$/ */
  function MatchHostPort(s: string): Option<HostPort> {
    if MatchBracketed(s).Some? then MatchBracketed(s) else MatchPlain(s)
  }

  function MatchBracketed(s: string): Option<HostPort> {
    if s == "" || s[0] != '[' then None
    else
      var k := 1 + IndexOf(s[1..], ']');
      if 2 <= k && k + 1 < |s| && s[k + 1] == ':' && PortDigits(s[k + 2..]) then Some(HostPort(s[..k + 1], s[k + 2..]))
      else None
  }

  function MatchPlain(s: string): Option<HostPort> {
    var k := IndexOf(s, ':');
    if 1 <= k < |s| && PortDigits(s[k + 1..]) then Some(HostPort(s[..k], s[k + 1..])) else None
  }

  /** What stands after the host and port, without its leading '/' and '?'. */
  function QueryText(s: string): string {
    var t := if s != "" && s[0] == '/' then s[1..] else s;
    if t != "" && t[0] == '?' then t[1..] else t
  }

  function ParseHostPortQuery(input: string): Option<(string, nat, string)> {
    var q := SearchQuery(input);
    match MatchHostPort(input[..q])
    case None => None
    case Some(m) =>
      if AllDigits(m.digits) then Some((StripBrackets(m.host), DigitsValue(m.digits), QueryText(input[q..]))) else None
  }

  /** The part of an ss link after its scheme, cut at the first '#'. */
  function LinkBody(link: string): string {
    var rest := if |link| >= 5 then link[5..] else "";
    rest[..IndexOf(rest, '#')]
  }

  function LinkName(link: string): string {
    var rest := if |link| >= 5 then link[5..] else "";
    var h := IndexOf(rest, '#');
    if h < |rest| then SafeDecode(rest[h + 1..]) else ""
  }

  /** parseShadowsocks; None where it throws. */
  function ParseShadowsocks(link: string): Option<ParsedLink> {
    var name, body := LinkName(link), LinkBody(link);
    if '@' in body then
      var at := LastIndexOf(body, '@');
      assert at >= 0 by { LastIndexFinds(body, '@'); }
      var userinfo := body[..at];
      var credential := if ':' in userinfo then SafeDecode(userinfo) else TryBase64(userinfo);
      match ParseHostPortQuery(body[at + 1..])
      case None => None
      case Some((address, port, query)) => Some(ParsedLink(name, address, port, credential, query))
    else
      match Base64ToText(body)
      case None => None
      case Some(decoded) =>
        var at := LastIndexOf(decoded, '@');
        if at < 0 then None
        else
          match ParseHostPortQuery(decoded[at + 1..])
          case None => None
          case Some((address, port, _)) => Some(ParsedLink(name, address, port, decoded[..at], ""))
  }

  lemma LastIndexFinds(s: string, c: char)
    ensures c in s ==> LastIndexOf(s, c) >= 0
  {
  }

  // ---- the builder -------------------------------------------------------------------

  function Credential(input: Input): string { input.method_ + ":" + input.password }

  function HostText(address: string): string {
    if ':' in address then "[" + address + "]" else address
  }

  function Fragment(name: string): string {
    if name != "" then "#" + EncodeURIComponent(name) else ""
  }

  function UserInfo(credential: string): string { BytesToBase64Url(Utf8(credential)) }

  function BuildShadowsocks(input: Input): string {
    "ss://" + UserInfo(Credential(input)) + "@" + HostText(input.address) + ":" + Itoa(input.port)
      + Fragment(input.name)
  }

  // ---- when a link comes back ----------------------------------------------------------

  predicate StartsWithBom(s: string) { s != "" && s[0] == Bom }

  /** The addresses a link can carry. */
  predicate GoodAddress(address: string) {
    && address != "" && '#' !in address && '@' !in address && '/' !in address && '?' !in address
    && if ':' in address then ']' !in address else address[0] != '[' && address[|address| - 1] != ']'
  }

  function Expected(input: Input): ParsedLink {
    ParsedLink(input.name, input.address, input.port, Credential(input), "")
  }

  lemma UserInfoClean(credential: string)
    ensures '@' !in UserInfo(credential) && '#' !in UserInfo(credential) && ':' !in UserInfo(credential)
  {
    hide Body, UrlSafe, IsSymbol, Utf8;
    var b := Utf8(credential);
    UrlIsBody(b);
    BodySymbols(b);
    forall i | 0 <= i < |Body(b)|
      ensures UrlSafe(Body(b)[i]) != '@' && UrlSafe(Body(b)[i]) != '#' && UrlSafe(Body(b)[i]) != ':'
    {
      UrlSymbolIsPlain(Body(b)[i]);
    }
  }

  lemma UrlSymbolIsPlain(c: char)
    requires IsSymbol(c)
    ensures UrlSafe(c) != '@' && UrlSafe(c) != '#' && UrlSafe(c) != ':'
  {
  }

  lemma DigitsClean(port: nat)
    ensures PortDigits(Itoa(port)) && DigitsValue(Itoa(port)) == port
    ensures '@' !in Itoa(port) && '#' !in Itoa(port) && '/' !in Itoa(port) && '?' !in Itoa(port)
    ensures ':' !in Itoa(port) && ']' !in Itoa(port)
  {
    ItoaValue(port);
  }

  /** The body of a built link, when its host text holds no '#'. */
  function Assembled(input: Input): string {
    UserInfo(Credential(input)) + "@" + HostText(input.address) + ":" + Itoa(input.port)
  }

  lemma BuiltParts(input: Input)
    requires '#' !in input.address
    ensures LinkBody(BuildShadowsocks(input)) == Assembled(input)
    ensures LinkName(BuildShadowsocks(input)) == input.name
  {
    hide UserInfo, Itoa, EncodeURIComponent, IndexOf, DecodeURIComponent;
    var link, body, fragment := BuildShadowsocks(input), Assembled(input), Fragment(input.name);
    UserInfoClean(Credential(input));
    DigitsClean(input.port);
    assert link[5..] == body + fragment;
    assert '#' !in body;
    IndexAt(body + fragment, '#', |body|);
    assert (body + fragment)[..|body|] == body;
    if input.name != "" {
      assert (body + fragment)[|body| + 1..] == EncodeURIComponent(input.name);
      PercentRoundTrip(input.name);
    }
  }

  lemma LastIndexIs(s: string, c: char, i: nat)
    requires i < |s| && s[i] == c && forall k :: i < k < |s| ==> s[k] != c
    ensures LastIndexOf(s, c) == i
  {
    hide LastIndexOf;
  }

  lemma LastAt(front: string, c: char, back: string)
    requires c !in back
    ensures LastIndexOf(front + [c] + back, c) == |front|
  {
    hide LastIndexOf;
    var s := front + [c] + back;
    assert s[|front| + 1..] == back && s[|front|] == c;
    forall k | |front| < k < |s|
      ensures s[k] != c
    {
      assert s[|front| + 1..][k - |front| - 1] == s[k];
    }
    LastIndexIs(s, c, |front|);
  }

  lemma CredentialBack(credential: string)
    requires ':' in credential
    ensures TryBase64(UserInfo(credential))
      == if !StartsWithBom(credential) then credential
         else if ':' in credential[1..] then credential[1..] else UserInfo(credential)
  {
    hide Base64ToBytes, BytesToBase64Url, Utf8, DecodeText;
    Base64UrlRoundTrip(Utf8(credential));
    TextRoundTrip(credential);
  }

  // ---- good addresses come back -----------------------------------------------------------

  lemma HostTextClean(address: string)
    requires GoodAddress(address)
    ensures '@' !in HostText(address) && '#' !in HostText(address) && '/' !in HostText(address)
      && '?' !in HostText(address)
  {
  }

  lemma MatchGoodHost(address: string, digits: string)
    requires GoodAddress(address) && PortDigits(digits) && ':' !in digits && ']' !in digits
    ensures MatchHostPort(HostText(address) + ":" + digits) == Some(HostPort(HostText(address), digits))
    ensures StripBrackets(HostText(address)) == address
  {
    hide IndexOf;
    var s := HostText(address) + ":" + digits;
    if ':' in address {
      BracketedHost(address, digits);
    } else {
      PlainHost(address, digits);
    }
  }

  lemma BracketedHost(address: string, digits: string)
    requires address != "" && ']' !in address && PortDigits(digits)
    ensures MatchBracketed("[" + address + "]:" + digits) == Some(HostPort("[" + address + "]", digits))
    ensures StripBrackets("[" + address + "]") == address
    ensures "[" + address + "]" + ":" + digits == "[" + address + "]:" + digits
  {
    hide IndexOf;
    var s := "[" + address + "]:" + digits;
    var n := |address|;
    assert s[1..][..n] == address && s[1..][n] == ']';
    IndexAt(s[1..], ']', n);
    assert s[n + 2] == ':' && s[n + 3..] == digits && s[..n + 2] == "[" + address + "]";
    var h := "[" + address + "]";
    assert h[1..] == address + "]" && h[1..][..n] == address;
  }

  lemma PlainHost(address: string, digits: string)
    requires address != "" && ':' !in address && address[0] != '[' && PortDigits(digits)
    ensures MatchHostPort(address + ":" + digits) == Some(HostPort(address, digits))
    ensures address[|address| - 1] != ']' ==> StripBrackets(address) == address
  {
    hide IndexOf;
    var s := address + ":" + digits;
    assert s[0] == address[0] && s[|address|] == ':' && s[..|address|] == address && s[|address| + 1..] == digits;
    IndexAt(s, ':', |address|);
  }

  lemma QueryFree(s: string)
    requires '/' !in s && '?' !in s
    ensures SearchQuery(s) == |s|
  {
    hide SearchQuery;
    assert forall k :: 0 <= k < |s| ==> s[k] != '/' && s[k] != '?';
  }

  lemma HostPortBack(address: string, port: nat)
    requires GoodAddress(address)
    ensures ParseHostPortQuery(HostText(address) + ":" + Itoa(port)) == Some((address, port, ""))
  {
    hide Itoa, MatchHostPort, SearchQuery, GoodAddress, StripBrackets, HostText, DigitsValue;
    DigitsClean(port);
    HostTextClean(address);
    var s := HostText(address) + ":" + Itoa(port);
    QueryFree(s);
    assert s[..|s|] == s && s[|s|..] == "";
    MatchGoodHost(address, Itoa(port));
  }

  /** The parts of the assembled body, cut at its last '@'. */
  lemma CutAssembled(input: Input)
    requires '@' !in HostText(input.address)
    ensures var body, user := Assembled(input), UserInfo(Credential(input));
      && '@' in body && LastIndexOf(body, '@') == |user| && body[..|user|] == user
      && body[|user| + 1..] == HostText(input.address) + ":" + Itoa(input.port)
  {
    hide UserInfo, Itoa, HostText, LastIndexOf;
    var user, back := UserInfo(Credential(input)), HostText(input.address) + ":" + Itoa(input.port);
    DigitsClean(input.port);
    assert Assembled(input) == user + ['@'] + back;
    LastAt(user, '@', back);
    assert Assembled(input)[|user|] == '@';
  }

  lemma GoodComesBack(input: Input)
    requires GoodAddress(input.address) && !StartsWithBom(Credential(input))
    ensures ParseShadowsocks(BuildShadowsocks(input)) == Some(Expected(input))
  {
    hide UserInfo, Itoa, HostText, LastIndexOf, LinkBody, LinkName, BuildShadowsocks, TryBase64, ParseHostPortQuery,
      Assembled;
    HostTextClean(input.address);
    BuiltParts(input);
    CutAssembled(input);
    UserInfoClean(Credential(input));
    ColonInside(input);
    CredentialBack(Credential(input));
    HostPortBack(input.address, input.port);
  }

  lemma ColonInside(input: Input)
    ensures ':' in Credential(input)
  {
    assert Credential(input)[|input.method_|] == ':';
  }

  // ---- and only they do ------------------------------------------------------------------------

  /** A parsed address is cut from the text before any '/' or '?'. */
  lemma AddressWithin(text: string, c: char)
    requires ParseHostPortQuery(text).Some? && c in ParseHostPortQuery(text).value.0
    ensures c in text && c != '/' && c != '?'
  {
    hide SearchQuery, IndexOf;
    var q := SearchQuery(text);
    var m := MatchHostPort(text[..q]).value;
    assert c in StripBrackets(m.host);
    StripWithin(m.host, c);
    assert m.host <= text[..q];
    assert c in text[..q];
  }

  lemma StripWithin(host: string, c: char)
    ensures c in StripBrackets(host) ==> c in host
  {
  }

  /** The address a link yields is made of characters after the last '@' of its body, when it has one. */
  lemma ParsedWithin(link: string, c: char)
    requires '@' in LinkBody(link) && ParseShadowsocks(link).Some? && c in ParseShadowsocks(link).value.address
    ensures c in LinkBody(link) && c != '@' && c != '/' && c != '?'
  {
    hide LinkBody, LinkName, LastIndexOf, ParseHostPortQuery, TryBase64, SafeDecode;
    var body := LinkBody(link);
    var at := LastIndexOf(body, '@');
    LastIndexFinds(body, '@');
    AddressWithin(body[at + 1..], c);
    assert forall k :: at < k < |body| ==> body[at + 1..][k - at - 1] == body[k];
  }

  lemma BodyHasAt(input: Input)
    ensures '@' in LinkBody(BuildShadowsocks(input)) && '#' !in LinkBody(BuildShadowsocks(input))
  {
    hide UserInfo, Itoa, HostText, IndexOf, Fragment;
    var link, user := BuildShadowsocks(input), UserInfo(Credential(input));
    UserInfoClean(Credential(input));
    var tail := HostText(input.address) + ":" + Itoa(input.port) + Fragment(input.name);
    assert link[5..] == user + "@" + tail;
    var h := IndexOf(link[5..], '#');
    assert forall i :: 0 <= i < |user| ==> link[5..][i] == user[i];
    assert link[5..][|user|] == '@';
    assert h > |user|;
    assert LinkBody(link)[|user|] == '@';
  }

  /** Separators in the address never come back. */
  lemma SeparatorsAreLost(input: Input, c: char)
    requires c in input.address && c in {'#', '@', '/', '?'}
    ensures ParseShadowsocks(BuildShadowsocks(input)) != Some(Expected(input))
  {
    hide BuildShadowsocks, ParseShadowsocks, LinkBody;
    var link := BuildShadowsocks(input);
    BodyHasAt(input);
    if ParseShadowsocks(link) == Some(Expected(input)) {
      ParsedWithin(link, c);
    }
  }

  lemma EmptyHostFails(digits: string)
    requires PortDigits(digits)
    ensures MatchHostPort(":" + digits).None?
  {
    hide IndexOf;
    var s := ":" + digits;
    IndexAt(s, ':', 0);
  }

  lemma IndexBefore(s: string, c: char, x: nat)
    requires x < |s| && s[x] == c
    ensures IndexOf(s, c) <= x
  {
    hide IndexOf;
    var k := IndexOf(s, c);
    assert forall i :: 0 <= i < k ==> s[..k][i] == s[i];
  }

  lemma NotDigits(s: string, from: nat, at: nat)
    requires from <= at < |s| && s[at] == ']'
    ensures !AllDigits(s[from..])
  {
    assert s[from..][at - from] == ']';
  }

  lemma BracketedFails(address: string, digits: string)
    requires ']' in address && PortDigits(digits)
    ensures MatchBracketed("[" + address + "]:" + digits).None?
  {
    hide IndexOf;
    var s, n := "[" + address + "]:" + digits, |address|;
    var x :| 0 <= x < n && address[x] == ']';
    IndexBefore(s[1..], ']', x);
    var k := 1 + IndexOf(s[1..], ']');
    assert s[n + 1] == ']' && s[n + 2] == ':';
    if k + 2 <= n + 1 {
      NotDigits(s, k + 2, n + 1);
    }
  }

  lemma PlainFails(address: string, digits: string)
    requires ':' in address && PortDigits(digits)
    ensures MatchPlain("[" + address + "]:" + digits).None?
  {
    hide IndexOf;
    var s, n := "[" + address + "]:" + digits, |address|;
    var y :| 0 <= y < n && address[y] == ':';
    IndexBefore(s, ':', y + 1);
    assert s[n + 1] == ']';
    NotDigits(s, IndexOf(s, ':') + 1, n + 1);
  }

  /** A host text without '@' is parsed where it stands. */
  lemma ParsedFrom(input: Input)
    requires '#' !in input.address && '@' !in input.address
    ensures ParseShadowsocks(BuildShadowsocks(input))
      == (match ParseHostPortQuery(HostText(input.address) + ":" + Itoa(input.port))
          case None => None
          case Some((address, port, query)) =>
            Some(ParsedLink(input.name, address, port, TryBase64(UserInfo(Credential(input))), query)))
  {
    hide UserInfo, Itoa, LastIndexOf, LinkBody, LinkName, BuildShadowsocks, TryBase64, ParseHostPortQuery, Assembled;
    assert '@' !in HostText(input.address);
    BuiltParts(input);
    CutAssembled(input);
    UserInfoClean(Credential(input));
  }

  /** Without separators the pattern sees host and port alone. */
  lemma MatchedFrom(address: string, port: nat)
    requires '/' !in address && '?' !in address
    ensures var m := MatchHostPort(HostText(address) + ":" + Itoa(port));
      ParseHostPortQuery(HostText(address) + ":" + Itoa(port)).Some? ==>
        m.Some? && ParseHostPortQuery(HostText(address) + ":" + Itoa(port)).value.0 == StripBrackets(m.value.host)
  {
    hide Itoa, MatchHostPort, SearchQuery, StripBrackets, DigitsValue;
    DigitsClean(port);
    var s := HostText(address) + ":" + Itoa(port);
    QueryFree(s);
    assert s[..|s|] == s;
  }

  /** A colon-free address with a bracket at an end loses it. */
  lemma EndBracketIsLost(address: string, digits: string)
    requires address != "" && ':' !in address && (address[0] == '[' || address[|address| - 1] == ']')
    requires PortDigits(digits) && ':' !in digits
    ensures var m := MatchHostPort(address + ":" + digits);
      m.Some? ==> StripBrackets(m.value.host) != address
  {
    hide IndexOf;
    var s, n := address + ":" + digits, |address|;
    assert s[..n] == address && s[n] == ':';
    IndexAt(s, ':', n);
    assert forall i :: 0 <= i < |s| && s[i] == ':' ==> i == n;
  }

  /** An address that links cannot carry does not come back. */
  lemma BadAddressIsLost(input: Input)
    requires !GoodAddress(input.address)
    ensures ParseShadowsocks(BuildShadowsocks(input)) != Some(Expected(input))
  {
    hide BuildShadowsocks, ParseShadowsocks, Itoa, ParseHostPortQuery, StripBrackets, MatchHostPort;
    var address, digits := input.address, Itoa(input.port);
    if '#' in address {
      SeparatorsAreLost(input, '#');
    } else if '@' in address {
      SeparatorsAreLost(input, '@');
    } else if '/' in address {
      SeparatorsAreLost(input, '/');
    } else if '?' in address {
      SeparatorsAreLost(input, '?');
    } else {
      DigitsClean(input.port);
      ParsedFrom(input);
      MatchedFrom(address, input.port);
      if address == "" {
        EmptyHostFails(digits);
        assert HostText(address) + ":" + digits == ":" + digits;
      } else if ':' in address {
        BracketedFails(address, digits);
        PlainFails(address, digits);
        NeitherMatches("[" + address + "]:" + digits);
        assert HostText(address) + ":" + digits == "[" + address + "]:" + digits;
      } else {
        EndBracketIsLost(address, digits);
      }
    }
  }

  lemma NeitherMatches(s: string)
    requires MatchBracketed(s).None? && MatchPlain(s).None?
    ensures MatchHostPort(s).None?
  {
  }

  /**
   Parsing a built link gives method:password, address, port and name back exactly when the
   address is one a link can carry and the credential does not open with a byte order mark.
   */
  lemma LinkRoundTrip(input: Input)
    ensures ParseShadowsocks(BuildShadowsocks(input)) == Some(Expected(input))
      <==> GoodAddress(input.address) && !StartsWithBom(Credential(input))
  {
    hide BuildShadowsocks, ParseShadowsocks, GoodAddress, StartsWithBom, TryBase64, UserInfo, ParseHostPortQuery;
    if !GoodAddress(input.address) {
      BadAddressIsLost(input);
    } else if StartsWithBom(Credential(input)) {
      GoodHasNoSeparator(input.address);
      ParsedFrom(input);
      ColonInside(input);
      BomIsLost(Credential(input));
    } else {
      GoodComesBack(input);
    }
  }

  lemma GoodHasNoSeparator(address: string)
    requires GoodAddress(address)
    ensures '#' !in address && '@' !in address
  {
  }

  lemma BomIsLost(credential: string)
    requires ':' in credential && StartsWithBom(credential)
    ensures TryBase64(UserInfo(credential)) != credential
  {
    hide UserInfo, TryBase64;
    CredentialBack(credential);
    UserInfoClean(credential);
    assert |credential[1..]| != |credential|;
  }
}
