/**
 The desired configuration of one mtproto inbound (internal/mtproto/manager.go): its two
 fingerprints, the TOML text rendered for mtg, and the payload of a live secret update.
 */
module MtgConfig {
  import opened Prelude
  import opened Text
  import opened Sorting

  datatype SecretEntry = SecretEntry(name: string, secret: string, adTag: string)

  datatype Instance = Instance(
    id: Int64, tag: string, listen: string, port: int, secrets: seq<SecretEntry>,
    debug: bool, proxyProtocolListener: bool, preferIP: string,
    frontingIP: string, frontingPort: int, frontingProxyProtocol: bool,
    throttleMaxConnections: int, publicIPv4: string, publicIPv6: string,
    routeThroughXray: bool, xrayRoutePort: int)

  function BindTo(inst: Instance): string {
    (if inst.listen == "" then "0.0.0.0" else inst.listen) + ":" + Itoa(inst.port)
  }

  function FormatBool(b: bool): string {
    if b then "true" else "false"
  }

  function StructuralParts(inst: Instance): seq<string> {
    [BindTo(inst), FormatBool(inst.debug), FormatBool(inst.proxyProtocolListener), inst.preferIP,
     inst.frontingIP, Itoa(inst.frontingPort), FormatBool(inst.frontingProxyProtocol),
     Itoa(inst.throttleMaxConnections), FormatBool(inst.routeThroughXray), Itoa(inst.xrayRoutePort),
     inst.publicIPv4, inst.publicIPv6]
  }

  function StructuralFingerprint(inst: Instance): string {
    Join(StructuralParts(inst), "|")
  }

  function Pair(e: SecretEntry): string {
    e.name + "=" + e.secret + ";tag=" + e.adTag
  }

  function Pairs(es: seq<SecretEntry>): seq<string> {
    if es == [] then [] else Pairs(es[..|es| - 1]) + [Pair(es[|es| - 1])]
  }

  function SecretsFingerprint(es: seq<SecretEntry>): string {
    Join(Sort(Pairs(es)), "|")
  }

  method CollectPairs(es: seq<SecretEntry>) returns (pairs: seq<string>)
    ensures pairs == Pairs(es)
  {
    pairs := [];
    for i := 0 to |es|
      invariant pairs == Pairs(es[..i])
    {
      assert es[..i+1][..i] == es[..i];
      pairs := pairs + [Pair(es[i])];
    }
    assert es[..|es|] == es;
  }

  // ---- the rendered text -----------------------------------------------------------

  const HexDigits := "0123456789abcdef"

  /** One character inside %q quotes. */
  function Escaped(c: char): string {
    if c == '"' then "\\\""
    else if c == '\\' then "\\\\"
    else if c == '\n' then "\\n"
    else if c == '\r' then "\\r"
    else if c == '\t' then "\\t"
    else if c as int == 7 then "\\a"
    else if c as int == 8 then "\\b"
    else if c as int == 11 then "\\v"
    else if c as int == 12 then "\\f"
    else if c as int < 32 || c as int == 127 then "\\x" + [HexDigits[c as int / 16], HexDigits[c as int % 16]]
    else [c]
  }

  function EscapedText(s: string): string {
    if s == "" then "" else Escaped(s[0]) + EscapedText(s[1..])
  }

  function Quoted(s: string): string { "\"" + EscapedText(s) + "\"" }

  function Shown(b: bool, s: string): string { if b then s else "" }

  function BindLine(inst: Instance): string { "bind-to = " + Quoted(BindTo(inst)) + "\n" }

  function ApiLine(apiPort: int): string { "api-bind-to = \"127.0.0.1:" + Itoa(apiPort) + "\"\n" }

  /** Everything renderConfig prints before the per-secret sections. */
  function HeadText(inst: Instance, apiPort: int, apiToken: string): string {
    BindLine(inst)
      + Shown(inst.debug, "debug = true\n")
      + Shown(inst.proxyProtocolListener, "proxy-protocol-listener = true\n")
      + Shown(inst.preferIP != "", "prefer-ip = " + Quoted(inst.preferIP) + "\n")
      + ApiLine(apiPort)
      + Shown(apiToken != "", "api-token = " + Quoted(apiToken) + "\n")
      + Shown(inst.publicIPv4 != "", "public-ipv4 = " + Quoted(inst.publicIPv4) + "\n")
      + Shown(inst.publicIPv6 != "", "public-ipv6 = " + Quoted(inst.publicIPv6) + "\n")
      + FrontingText(inst)
      + Shown(inst.routeThroughXray && inst.xrayRoutePort > 0,
              "\n[network]\nproxies = [\"socks5://127.0.0.1:" + Itoa(inst.xrayRoutePort) + "\"]\n")
      + Shown(inst.throttleMaxConnections > 0,
              "\n[throttle]\nmax-connections = " + Itoa(inst.throttleMaxConnections) + "\n")
  }

  function FrontingText(inst: Instance): string {
    if inst.frontingIP != "" || inst.frontingPort > 0 || inst.frontingProxyProtocol then
      "\n[domain-fronting]\n"
        + Shown(inst.frontingIP != "", "host = " + Quoted(inst.frontingIP) + "\n")
        + Shown(inst.frontingPort > 0, "port = " + Itoa(inst.frontingPort) + "\n")
        + Shown(inst.frontingProxyProtocol, "proxy-protocol = true\n")
    else ""
  }

  function TagLines(es: seq<SecretEntry>): string {
    if es == [] then ""
    else
      var e := es[|es| - 1];
      TagLines(es[..|es| - 1]) + Shown(e.adTag != "", Quoted(e.name) + " = " + Quoted(e.adTag) + "\n")
  }

  function SecretLines(es: seq<SecretEntry>): string {
    if es == [] then ""
    else
      var e := es[|es| - 1];
      SecretLines(es[..|es| - 1]) + Quoted(e.name) + " = " + Quoted(e.secret) + "\n"
  }

  predicate AnyTag(es: seq<SecretEntry>) {
    exists i :: 0 <= i < |es| && es[i].adTag != ""
  }

  function TagSection(es: seq<SecretEntry>): string {
    Shown(AnyTag(es), "\n[secret-ad-tags]\n") + TagLines(es)
  }

  function SecretSections(es: seq<SecretEntry>): string {
    TagSection(es) + "\n[secrets]\n" + SecretLines(es)
  }

  function RenderText(inst: Instance, apiPort: int, apiToken: string): string {
    HeadText(inst, apiPort, apiToken) + SecretSections(inst.secrets)
  }

  /** The tag loop of renderConfig; the section header is printed before the first tag only. */
  method RenderTags(es: seq<SecretEntry>) returns (text: string)
    ensures text == TagSection(es)
  {
    hide TagSection, Quoted;
    NoTagSection();
    text := "";
    var tagged := false;
    for i := 0 to |es|
      invariant tagged <==> AnyTag(es[..i])
      invariant text == TagSection(es[..i])
    {
      var e := es[i];
      AnyTagExtend(es, i);
      TagSectionExtend(es, i);
      if e.adTag == "" {
        continue;
      }
      if !tagged {
        text := text + "\n[secret-ad-tags]\n";
        tagged := true;
      }
      text := text + (Quoted(e.name) + " = " + Quoted(e.adTag) + "\n");
    }
    assert es[..|es|] == es;
  }

  /** The secrets loop of renderConfig. */
  method RenderSecrets(es: seq<SecretEntry>) returns (text: string)
    ensures text == SecretLines(es)
  {
    hide Quoted;
    text := "";
    for i := 0 to |es|
      invariant text == SecretLines(es[..i])
    {
      assert es[..i+1][..i] == es[..i];
      text := text + Quoted(es[i].name) + " = " + Quoted(es[i].secret) + "\n";
    }
    assert es[..|es|] == es;
  }

  /** renderConfig. */
  method RenderConfig(inst: Instance, apiPort: int, apiToken: string) returns (text: string)
    ensures text == RenderText(inst, apiPort, apiToken)
  {
    hide Quoted, Itoa, TagSection, SecretLines, Shown, BindLine, ApiLine, FrontingText;
    var b := BindLine(inst);
    b := WriteIf(b, inst.debug, "debug = true\n");
    b := WriteIf(b, inst.proxyProtocolListener, "proxy-protocol-listener = true\n");
    b := WriteIf(b, inst.preferIP != "", "prefer-ip = " + Quoted(inst.preferIP) + "\n");
    b := b + ApiLine(apiPort);
    b := WriteIf(b, apiToken != "", "api-token = " + Quoted(apiToken) + "\n");
    b := WriteIf(b, inst.publicIPv4 != "", "public-ipv4 = " + Quoted(inst.publicIPv4) + "\n");
    b := WriteIf(b, inst.publicIPv6 != "", "public-ipv6 = " + Quoted(inst.publicIPv6) + "\n");
    b := b + FrontingText(inst);
    b := WriteIf(b, inst.routeThroughXray && inst.xrayRoutePort > 0,
                 "\n[network]\nproxies = [\"socks5://127.0.0.1:" + Itoa(inst.xrayRoutePort) + "\"]\n");
    b := WriteIf(b, inst.throttleMaxConnections > 0,
                 "\n[throttle]\nmax-connections = " + Itoa(inst.throttleMaxConnections) + "\n");
    var tags := RenderTags(inst.secrets);
    var secrets := RenderSecrets(inst.secrets);
    text := b + (tags + "\n[secrets]\n" + secrets);
  }

  method WriteIf(b: string, shown: bool, s: string) returns (r: string)
    ensures r == b + Shown(shown, s)
  {
    r := if shown then b + s else b;
  }

  lemma NoTagSection()
    ensures TagSection([]) == "" && !AnyTag([])
  {
  }

  lemma TagSectionExtend(es: seq<SecretEntry>, i: nat)
    requires i < |es|
    ensures TagSection(es[..i+1]) == TagSection(es[..i])
      + (if es[i].adTag == "" then ""
         else (if AnyTag(es[..i]) then "" else "\n[secret-ad-tags]\n")
              + (Quoted(es[i].name) + " = " + Quoted(es[i].adTag) + "\n"))
  {
    hide Quoted, AnyTag;
    assert es[..i+1][..i] == es[..i];
    AnyTagExtend(es, i);
    if !AnyTag(es[..i]) {
      NoTagLines(es[..i]);
    }
  }

  lemma AnyTagExtend(es: seq<SecretEntry>, i: nat)
    requires i < |es|
    ensures AnyTag(es[..i+1]) <==> AnyTag(es[..i]) || es[i].adTag != ""
  {
    if AnyTag(es[..i]) {
      var k :| 0 <= k < i && es[..i][k].adTag != "";
      assert es[..i+1][k].adTag != "";
    }
    if es[i].adTag != "" {
      assert es[..i+1][i].adTag != "";
    }
    if AnyTag(es[..i+1]) {
      var k :| 0 <= k < i + 1 && es[..i+1][k].adTag != "";
      if k < i {
        assert es[..i][k].adTag != "";
      }
    }
  }

  lemma {:induction false} NoTagLines(es: seq<SecretEntry>)
    requires !AnyTag(es)
    ensures TagLines(es) == ""
  {
    if es != [] {
      var n := |es| - 1;
      assert es[n].adTag == "";
      forall i | 0 <= i < n
        ensures es[..n][i].adTag == ""
      {
        assert es[i].adTag == "";
      }
      NoTagLines(es[..n]);
    }
  }

  // ---- the live update ----------------------------------------------------------------

  datatype SecretPut = SecretPut(secret: string, adTag: string)

  /** secretsPayload: one entry per name, the last one when a name repeats. */
  function Payload(es: seq<SecretEntry>): map<string, SecretPut> {
    if es == [] then map[]
    else
      var e := es[|es| - 1];
      Payload(es[..|es| - 1])[e.name := SecretPut(e.secret, e.adTag)]
  }

  method BuildPayload(es: seq<SecretEntry>) returns (secrets: map<string, SecretPut>)
    ensures secrets == Payload(es)
  {
    secrets := map[];
    for i := 0 to |es|
      invariant secrets == Payload(es[..i])
    {
      assert es[..i+1][..i] == es[..i];
      var e := es[i];
      secrets := secrets[e.name := SecretPut(e.secret, e.adTag)];
    }
    assert es[..|es|] == es;
  }

  // ---- secretsFingerprint decides the secrets ---------------------------------------------

  /** Names without '=' or '|', secrets without ';' or '|', tags without '|'. */
  predicate Plain(e: SecretEntry) {
    '=' !in e.name && '|' !in e.name && ';' !in e.secret && '|' !in e.secret && '|' !in e.adTag
  }

  predicate AllPlain(es: seq<SecretEntry>) {
    forall i :: 0 <= i < |es| ==> Plain(es[i])
  }

  /** Cutting a pair at its first '=' and the rest at its first ';'. */
  lemma PairCuts(e: SecretEntry)
    requires Plain(e)
    ensures Cut(Pair(e), '=') == Some((e.name, e.secret + ";tag=" + e.adTag))
    ensures Cut(e.secret + ";tag=" + e.adTag, ';') == Some((e.secret, "tag=" + e.adTag))
  {
    hide Cut, IndexOf;
    assert Pair(e) == e.name + ['='] + (e.secret + ";tag=" + e.adTag);
    CutAt(e.name, '=', e.secret + ";tag=" + e.adTag);
    assert e.secret + ";tag=" + e.adTag == e.secret + [';'] + ("tag=" + e.adTag);
    CutAt(e.secret, ';', "tag=" + e.adTag);
  }

  lemma PairInjective(x: SecretEntry, y: SecretEntry)
    requires Plain(x) && Plain(y) && Pair(x) == Pair(y)
    ensures x == y
  {
    hide Cut, Pair;
    PairCuts(x);
    PairCuts(y);
    assert ("tag=" + x.adTag)[4..] == x.adTag && ("tag=" + y.adTag)[4..] == y.adTag;
  }

  lemma PairIsClean(e: SecretEntry)
    requires Plain(e)
    ensures '|' !in Pair(e)
  {
  }

  lemma {:induction false} PairsClean(es: seq<SecretEntry>)
    requires AllPlain(es)
    ensures forall p :: p in Pairs(es) ==> '|' !in p && p != ""
    ensures |Pairs(es)| == |es|
  {
    if es != [] {
      PairsClean(es[..|es| - 1]);
      PairIsClean(es[|es| - 1]);
    }
  }

  /** Counting a pair among the pairs is counting its entry among the entries. */
  lemma {:induction false} PairCount(es: seq<SecretEntry>, x: SecretEntry)
    requires AllPlain(es) && Plain(x)
    ensures multiset(Pairs(es))[Pair(x)] == multiset(es)[x]
  {
    if es != [] {
      var n := |es| - 1;
      PairCount(es[..n], x);
      assert es == es[..n] + [es[n]];
      if Pair(es[n]) == Pair(x) {
        PairInjective(es[n], x);
      }
    }
  }

  lemma JoinSortedInjective(a: seq<string>, b: seq<string>)
    requires forall p :: p in a ==> '|' !in p && p != ""
    requires forall p :: p in b ==> '|' !in p && p != ""
    requires Join(Sort(a), "|") == Join(Sort(b), "|")
    ensures multiset(a) == multiset(b)
  {
    hide Sort, Join;
    var x, y := Sort(a), Sort(b);
    SortKeeps(a);
    SortKeeps(b);
    if x == [] || y == [] {
      NonEmptyJoin(x);
      NonEmptyJoin(y);
    } else {
      SplitJoin(x, '|');
      SplitJoin(y, '|');
    }
    SortDecides(a, b);
  }

  lemma SortKeeps(a: seq<string>)
    ensures forall p :: p in Sort(a) <==> p in a
  {
    assert forall p :: p in Sort(a) <==> p in multiset(Sort(a));
  }

  lemma NonEmptyJoin(parts: seq<string>)
    requires forall p :: p in parts ==> p != ""
    ensures Join(parts, "|") == "" <==> parts == []
  {
    if parts != [] {
      assert parts[0] in parts;
    }
  }

  lemma NoEntries(b: seq<SecretEntry>)
    requires multiset(b) == multiset([])
    ensures b == []
  {
    assert |multiset(b)| == |b|;
  }

  /** b without its k-th entry. */
  function Without(b: seq<SecretEntry>, k: nat): seq<SecretEntry>
    requires k < |b|
  {
    b[..k] + b[k+1..]
  }

  lemma SplitAtIndex(b: seq<SecretEntry>, k: nat)
    requires k < |b|
    ensures b == b[..k] + [b[k]] + b[k+1..]
  {
  }

  lemma WithoutOne(b: seq<SecretEntry>, k: nat)
    requires k < |b|
    ensures multiset(b) == multiset(Without(b, k)) + multiset{b[k]}
  {
    SplitAtIndex(b, k);
    var front, back := b[..k], b[k+1..];
    assert multiset(front + [b[k]] + back) == multiset(front) + multiset{b[k]} + multiset(back);
    assert multiset(front + back) == multiset(front) + multiset(back);
  }

  lemma SameRest(x: multiset<SecretEntry>, y: multiset<SecretEntry>, e: SecretEntry)
    requires x + multiset{e} == y + multiset{e}
    ensures x == y
  {
    assert x == (x + multiset{e}) - multiset{e};
    assert y == (y + multiset{e}) - multiset{e};
  }

  lemma PairsWithout(b: seq<SecretEntry>, k: nat)
    requires k < |b|
    ensures multiset(Pairs(b)) == multiset(Pairs(Without(b, k))) + multiset{Pair(b[k])}
  {
    hide Pairs, Pair;
    SplitAtIndex(b, k);
    PairsInsert(b[..k], b[k], b[k+1..]);
  }

  lemma Find(b: seq<SecretEntry>, x: SecretEntry) returns (k: nat)
    requires x in multiset(b)
    ensures k < |b| && b[k] == x
  {
    k :| 0 <= k < |b| && b[k] == x;
  }

  lemma {:induction false} SameEntriesSamePairs(a: seq<SecretEntry>, b: seq<SecretEntry>)
    requires multiset(a) == multiset(b)
    ensures multiset(Pairs(a)) == multiset(Pairs(b))
    decreases |multiset(a)|
  {
    hide Pairs, Pair, Without;
    if a == [] {
      NoEntries(b);
    } else {
      assert a[0] in a;
      var k := Find(b, a[0]);
      WithoutOne(a, 0);
      WithoutOne(b, k);
      SameRest(multiset(Without(a, 0)), multiset(Without(b, k)), a[0]);
      PairsWithout(a, 0);
      PairsWithout(b, k);
      SameEntriesSamePairs(Without(a, 0), Without(b, k));
    }
  }

  lemma {:induction false} PairsConcat(a: seq<SecretEntry>, b: seq<SecretEntry>)
    ensures Pairs(a + b) == Pairs(a) + Pairs(b)
  {
    if b == [] {
      assert a + b == a;
    } else {
      var n := |b| - 1;
      PairsConcat(a, b[..n]);
      assert (a + b)[..|a + b| - 1] == a + b[..n];
    }
  }

  lemma PairsInsert(a: seq<SecretEntry>, x: SecretEntry, b: seq<SecretEntry>)
    ensures multiset(Pairs(a + [x] + b)) == multiset(Pairs(a + b)) + multiset{Pair(x)}
  {
    PairsConcat(a + [x], b);
    PairsConcat(a, [x]);
    PairsConcat(a, b);
    assert Pairs([x]) == [Pair(x)];
  }

  /** Reordering secrets never changes the fingerprint, whatever the fields hold. */
  lemma FingerprintIgnoresOrder(a: seq<SecretEntry>, b: seq<SecretEntry>)
    requires multiset(a) == multiset(b)
    ensures SecretsFingerprint(a) == SecretsFingerprint(b)
  {
    SameEntriesSamePairs(a, b);
    SortDecides(Pairs(a), Pairs(b));
  }

  /** With separator-free fields the fingerprint is equal exactly for the same secrets in any order. */
  lemma SecretsFingerprintDecides(a: seq<SecretEntry>, b: seq<SecretEntry>)
    requires AllPlain(a) && AllPlain(b)
    ensures SecretsFingerprint(a) == SecretsFingerprint(b) <==> multiset(a) == multiset(b)
  {
    if multiset(a) == multiset(b) {
      FingerprintIgnoresOrder(a, b);
    }
    if SecretsFingerprint(a) == SecretsFingerprint(b) {
      PairsClean(a);
      PairsClean(b);
      JoinSortedInjective(Pairs(a), Pairs(b));
      forall x
        ensures multiset(a)[x] == multiset(b)[x]
      {
        if x in multiset(a) || x in multiset(b) {
          assert x in a || x in b;
          PairCount(a, x);
          PairCount(b, x);
        }
      }
    }
  }

  lemma CollidingPairs(p: string, q: string)
    requires p == "a=b;tag=" && q == "c=d;tag="
    ensures Pairs([SecretEntry("a", "b", ""), SecretEntry("c", "d", "")]) == [p, q]
    ensures Pairs([SecretEntry("a", "b;tag=|c=d", "")]) == [p + "|" + q]
  {
    hide Join;
    var x, y, z := SecretEntry("a", "b", ""), SecretEntry("c", "d", ""), SecretEntry("a", "b;tag=|c=d", "");
    assert Pair(x) == p && Pair(y) == q && Pair(z) == p + "|" + q;
    OnePair(x);
    OnePair(z);
    assert [x, y][..1] == [x];
  }

  /** Without that condition it is not: one secret holding a separator reads as two entries. */
  lemma SeparatorsCollide()
    ensures var one := [SecretEntry("a", "b;tag=|c=d", "")];
      var two := [SecretEntry("a", "b", ""), SecretEntry("c", "d", "")];
      && SecretsFingerprint(one) == SecretsFingerprint(two) && multiset(one) != multiset(two)
  {
    var p, q := "a=b;tag=", "c=d;tag=";
    assert p[0] == 'a' && q[0] == 'c';
    CollidingSort(p, q);
    CollidingPairs(p, q);
    assert |multiset([SecretEntry("a", "b;tag=|c=d", "")])| == 1;
    assert |multiset([SecretEntry("a", "b", ""), SecretEntry("c", "d", "")])| == 2;
  }

  lemma CollidingSort(p: string, q: string)
    requires p != "" && q != "" && p[0] < q[0]
    ensures Join(Sort([p, q]), "|") == Join(Sort([p + "|" + q]), "|")
  {
    TwoSorted(p, q);
    assert Sort([p + "|" + q]) == [p + "|" + q];
    assert [p, q][1..] == [q];
    assert Join([p, q], "|") == p + "|" + q;
  }

  lemma OnePair(e: SecretEntry)
    ensures Pairs([e]) == [Pair(e)]
  {
    assert [e][..0] == [];
  }

  lemma TwoSorted(x: string, y: string)
    requires x != "" && y != "" && x[0] < y[0]
    ensures Sort([x, y]) == [x, y]
  {
    assert [x, y][1..] == [y];
    assert Sort([y]) == [y];
  }

  // ---- the structural fingerprint decides the rest of the file ---------------------------------

  /** Free-text fields without the '|' separator. */
  predicate PlainInstance(inst: Instance) {
    '|' !in inst.listen && '|' !in inst.preferIP && '|' !in inst.frontingIP
    && '|' !in inst.publicIPv4 && '|' !in inst.publicIPv6
  }

  lemma PartsClean(inst: Instance)
    requires PlainInstance(inst)
    ensures forall i :: 0 <= i < |StructuralParts(inst)| ==> '|' !in StructuralParts(inst)[i]
  {
    ItoaClean(inst.port);
    ItoaClean(inst.frontingPort);
    ItoaClean(inst.throttleMaxConnections);
    ItoaClean(inst.xrayRoutePort);
  }

  lemma ItoaClean(n: int)
    ensures '|' !in Itoa(n)
  {
  }

  lemma SamePartsSameFields(a: Instance, b: Instance)
    requires StructuralParts(a) == StructuralParts(b)
    ensures BindTo(a) == BindTo(b) && a.debug == b.debug && a.proxyProtocolListener == b.proxyProtocolListener
    ensures a.preferIP == b.preferIP && a.publicIPv4 == b.publicIPv4 && a.publicIPv6 == b.publicIPv6
    ensures a.frontingIP == b.frontingIP && a.frontingPort == b.frontingPort
    ensures a.frontingProxyProtocol == b.frontingProxyProtocol
    ensures a.throttleMaxConnections == b.throttleMaxConnections
    ensures a.routeThroughXray == b.routeThroughXray && a.xrayRoutePort == b.xrayRoutePort
  {
    hide Itoa, BindTo, FormatBool;
    var x, y := StructuralParts(a), StructuralParts(b);
    assert x[0] == y[0] && x[1] == y[1] && x[2] == y[2] && x[3] == y[3] && x[4] == y[4] && x[5] == y[5];
    assert x[6] == y[6] && x[7] == y[7] && x[8] == y[8] && x[9] == y[9] && x[10] == y[10] && x[11] == y[11];
    BoolText(a.debug, b.debug);
    BoolText(a.proxyProtocolListener, b.proxyProtocolListener);
    BoolText(a.frontingProxyProtocol, b.frontingProxyProtocol);
    BoolText(a.routeThroughXray, b.routeThroughXray);
    ItoaInjective(a.frontingPort, b.frontingPort);
    ItoaInjective(a.throttleMaxConnections, b.throttleMaxConnections);
    ItoaInjective(a.xrayRoutePort, b.xrayRoutePort);
  }

  lemma SamePartsSameHead(a: Instance, b: Instance, apiPort: int, apiToken: string)
    requires StructuralParts(a) == StructuralParts(b)
    ensures HeadText(a, apiPort, apiToken) == HeadText(b, apiPort, apiToken)
  {
    hide Itoa, Quoted, Shown, BindTo, StructuralParts;
    SamePartsSameFields(a, b);
  }

  lemma BoolText(a: bool, b: bool)
    ensures FormatBool(a) == FormatBool(b) <==> a == b
  {
  }

  /** Equal structural fingerprints: the same text before the per-secret sections. */
  lemma StructuralFingerprintDecides(a: Instance, b: Instance, apiPort: int, apiToken: string)
    requires PlainInstance(a)
    requires StructuralFingerprint(a) == StructuralFingerprint(b)
    ensures HeadText(a, apiPort, apiToken) == HeadText(b, apiPort, apiToken)
  {
    hide HeadText, Join;
    PartsClean(a);
    SplitJoin(StructuralParts(a), '|');
    JoinedParts(StructuralParts(b), '|');
    SplitJoin(StructuralParts(b), '|');
    SamePartsSameHead(a, b, apiPort, apiToken);
  }

  // ---- what the live update delivers -------------------------------------------------------------

  /** Entries of one name are the same entry. */
  predicate NamesAgree(es: seq<SecretEntry>) {
    forall i, j :: 0 <= i < j < |es| && es[i].name == es[j].name ==> es[i] == es[j]
  }

  lemma AgreeingElements(es: seq<SecretEntry>)
    ensures NamesAgree(es) <==> forall x, y :: x in es && y in es && x.name == y.name ==> x == y
  {
    if NamesAgree(es) {
      forall x, y | x in es && y in es && x.name == y.name
        ensures x == y
      {
        var i :| 0 <= i < |es| && es[i] == x;
        var j :| 0 <= j < |es| && es[j] == y;
        assert i < j || j < i || i == j;
      }
    }
  }

  lemma {:induction false} PayloadAt(es: seq<SecretEntry>)
    requires NamesAgree(es)
    ensures forall e :: e in es ==> e.name in Payload(es) && Payload(es)[e.name] == SecretPut(e.secret, e.adTag)
    ensures forall n :: n in Payload(es) ==> SecretEntry(n, Payload(es)[n].secret, Payload(es)[n].adTag) in es
  {
    hide NamesAgree;
    if es != [] {
      var k := |es| - 1;
      AgreeingElements(es);
      AgreeingElements(es[..k]);
      PayloadAt(es[..k]);
      assert es == es[..k] + [es[k]];
    }
  }

  lemma SameElements(a: seq<SecretEntry>, b: seq<SecretEntry>)
    requires multiset(a) == multiset(b)
    ensures forall e :: e in a <==> e in b
    ensures NamesAgree(a) ==> NamesAgree(b)
  {
    hide NamesAgree;
    assert forall e :: e in a <==> e in multiset(a);
    assert forall e :: e in b <==> e in multiset(b);
    AgreeingElements(a);
    AgreeingElements(b);
  }

  /** Equal fingerprints deliver the same secrets to a live process, when entries of one name agree. */
  lemma FingerprintDecidesPayload(a: seq<SecretEntry>, b: seq<SecretEntry>)
    requires AllPlain(a) && AllPlain(b) && NamesAgree(a)
    requires SecretsFingerprint(a) == SecretsFingerprint(b)
    ensures Payload(a) == Payload(b)
  {
    hide SecretsFingerprint, AllPlain, Payload, NamesAgree;
    SecretsFingerprintDecides(a, b);
    SameElements(a, b);
    PayloadAt(a);
    PayloadAt(b);
    forall n
      ensures n in Payload(a) <==> n in Payload(b)
      ensures n in Payload(a) ==> Payload(a)[n] == Payload(b)[n]
    {
      if n in Payload(a) {
        assert SecretEntry(n, Payload(a)[n].secret, Payload(a)[n].adTag) in b;
      }
      if n in Payload(b) {
        assert SecretEntry(n, Payload(b)[n].secret, Payload(b)[n].adTag) in a;
      }
    }
  }

  /** The same entries with the k-th one moved to the end, where it decides its name's payload. */
  lemma MovedToEnd(a: seq<SecretEntry>, k: nat)
    requires k < |a| && AllPlain(a)
    ensures var b := Without(a, k) + [a[k]];
      && AllPlain(b) && SecretsFingerprint(b) == SecretsFingerprint(a)
      && a[k].name in Payload(b) && Payload(b)[a[k].name] == SecretPut(a[k].secret, a[k].adTag)
  {
    hide SecretsFingerprint, Plain;
    var b := Without(a, k) + [a[k]];
    WithoutOne(a, k);
    assert multiset(b) == multiset(Without(a, k)) + multiset{a[k]};
    FingerprintIgnoresOrder(b, a);
    assert b[..|b| - 1] == Without(a, k);
  }

  /** The fingerprint decides the payload exactly for entries that agree wherever they share a name. */
  lemma PayloadDecidedExactly(a: seq<SecretEntry>)
    requires AllPlain(a)
    ensures (forall b :: AllPlain(b) && SecretsFingerprint(b) == SecretsFingerprint(a) ==> Payload(b) == Payload(a))
      <==> NamesAgree(a)
  {
    hide SecretsFingerprint, AllPlain, Payload, Without;
    if NamesAgree(a) {
      forall b | AllPlain(b) && SecretsFingerprint(b) == SecretsFingerprint(a)
        ensures Payload(b) == Payload(a)
      {
        FingerprintDecidesPayload(a, b);
      }
    } else {
      var i, j :| 0 <= i < j < |a| && a[i].name == a[j].name && a[i] != a[j];
      MovedToEnd(a, i);
      MovedToEnd(a, j);
      assert Payload(Without(a, i) + [a[i]]) != Payload(Without(a, j) + [a[j]]);
    }
  }

  lemma TwoPut(x: SecretEntry, y: SecretEntry)
    ensures y.name in Payload([x, y]) && Payload([x, y])[y.name] == SecretPut(y.secret, y.adTag)
  {
  }

  /** A repeated name breaks that: the same fingerprint, another payload. */
  lemma RepeatedNameCollides()
    ensures var x, y := SecretEntry("a", "1", ""), SecretEntry("a", "2", "");
      SecretsFingerprint([x, y]) == SecretsFingerprint([y, x]) && Payload([x, y]) != Payload([y, x])
  {
    hide SecretsFingerprint;
    var x, y := SecretEntry("a", "1", ""), SecretEntry("a", "2", "");
    assert multiset([x, y]) == multiset([y, x]);
    FingerprintIgnoresOrder([x, y], [y, x]);
    TwoPut(x, y);
    TwoPut(y, x);
  }
}
