/**
 A reader for the configuration file renderConfig writes (internal/mtproto/manager.go): sections,
 bare and quoted keys, quoted strings, bare words and one-string arrays.  Read back, the rendered
 file says exactly what the instance says.
 */
module MtgToml {
  import opened Prelude
  import opened Text
  import opened MtgConfig

  datatype Value = Str(s: string) | Bare(word: string) | OneStr(s: string)

  datatype Setting = Setting(section: string, key: string, value: Value)

  datatype Doc = Doc(section: string, settings: seq<Setting>)

  // ---- the reader ----------------------------------------------------------------

  function HexValue(c: char): Option<int> {
    if '0' <= c <= '9' then Some(c as int - '0' as int)
    else if 'a' <= c <= 'f' then Some(c as int - 'a' as int + 10)
    else None
  }

  /** The character a one-letter escape stands for. */
  function Unescape(c: char): Option<char> {
    match c
    case '"' => Some('"')
    case '\\' => Some('\\')
    case 'a' => Some(7 as char)
    case 'b' => Some(8 as char)
    case 't' => Some('\t')
    case 'n' => Some('\n')
    case 'v' => Some(11 as char)
    case 'f' => Some(12 as char)
    case 'r' => Some('\r')
    case _ => None
  }

  /** The first character of a quoted text, and what follows it. */
  function ReadChar(s: string): Option<(char, string)>
    requires s != ""
  {
    if s[0] != '\\' then Some((s[0], s[1..]))
    else if |s| < 2 then None
    else if s[1] == 'x' then
      if |s| < 4 || HexValue(s[2]).None? || HexValue(s[3]).None? then None
      else Some(((HexValue(s[2]).value * 16 + HexValue(s[3]).value) as char, s[4..]))
    else if Unescape(s[1]).None? then None
    else Some((Unescape(s[1]).value, s[2..]))
  }

  /** The text up to the closing quote, and what follows the quote. */
  function Unquote(s: string): Option<(string, string)>
    decreases |s|
  {
    if s == "" then None
    else if s[0] == '"' then Some(("", s[1..]))
    else
      match ReadChar(s)
      case None => None
      case Some((c, more)) =>
        match Unquote(more)
        case None => None
        case Some((t, rest)) => Some(([c] + t, rest))
  }

  function ReadValue(s: string): Option<Value> {
    if HasPrefix(s, "\"") then
      match Unquote(s[1..])
      case Some((t, rest)) => if rest == "" then Some(Str(t)) else None
      case None => None
    else if HasPrefix(s, "[\"") then
      match Unquote(s[2..])
      case Some((t, rest)) => if rest == "]" then Some(OneStr(t)) else None
      case None => None
    else if s == "" then None
    else Some(Bare(s))
  }

  function AfterKey(d: Doc, key: string, rest: string): Option<Doc> {
    if !HasPrefix(rest, " = ") || ReadValue(rest[3..]).None? then None
    else Some(Doc(d.section, d.settings + [Setting(d.section, key, ReadValue(rest[3..]).value)]))
  }

  function ReadLine(d: Doc, line: string): Option<Doc> {
    if line == "" then Some(d)
    else if line[0] == '[' then
      if line[|line| - 1] == ']' && |line| > 2 then Some(Doc(line[1..|line| - 1], d.settings)) else None
    else if line[0] == '"' then
      match Unquote(line[1..])
      case Some((key, rest)) => AfterKey(d, key, rest)
      case None => None
    else AfterKey(d, line[..IndexOf(line, ' ')], line[IndexOf(line, ' ')..])
  }

  /** Line by line; None for a line that is none of the above. */
  function ReadDoc(d: Doc, text: string): Option<Doc>
    decreases |text|
  {
    if text == "" then Some(d)
    else
      var i := IndexOf(text, '\n');
      match ReadLine(d, text[..i])
      case None => None
      case Some(e) => ReadDoc(e, if i == |text| then "" else text[i + 1..])
  }

  // ---- quoting is undone -------------------------------------------------------------

  lemma HexBack(k: nat)
    requires k < 16
    ensures HexValue(HexDigits[k]) == Some(k)
  {
  }

  lemma CharBack(c: char, more: string)
    ensures Escaped(c) + more != "" && (Escaped(c) + more)[0] != '"'
    ensures ReadChar(Escaped(c) + more) == Some((c, more))
    ensures '\n' !in Escaped(c)
  {
    hide HexDigits;
    var n := c as int;
    if n < 128 {
      HexBack(n / 16 % 16);
      HexBack(n % 16);
    }
    ReadEscape(Escaped(c), more);
    if |Escaped(c)| == 4 {
      DigitsAreDigits(n / 16);
      DigitsAreDigits(n % 16);
    }
  }

  lemma DigitsAreDigits(k: nat)
    requires k < 16
    ensures HexDigits[k] != '\n'
  {
  }

  lemma ReadEscape(e: string, more: string)
    requires e != ""
    ensures (e + more)[0] == e[0]
    ensures |e| == 1 ==> (e + more)[1..] == more
    ensures |e| == 2 ==> (e + more)[1] == e[1] && (e + more)[2..] == more
    ensures |e| == 4 ==>
      (e + more)[1] == e[1] && (e + more)[2] == e[2] && (e + more)[3] == e[3] && (e + more)[4..] == more
  {
  }

  /** What %q prints is read back, whatever the text holds. */
  lemma {:induction false} UnquoteBack(s: string, rest: string)
    ensures Unquote(EscapedText(s) + ("\"" + rest)) == Some((s, rest))
    ensures '\n' !in EscapedText(s)
  {
    hide Escaped, ReadChar;
    if s == "" {
      assert "" + ("\"" + rest) == "\"" + rest;
      assert ("\"" + rest)[1..] == rest;
    } else {
      var more := EscapedText(s[1..]) + ("\"" + rest);
      UnquoteBack(s[1..], rest);
      CharBack(s[0], more);
      assert EscapedText(s) + ("\"" + rest) == Escaped(s[0]) + more;
      assert [s[0]] + s[1..] == s;
    }
  }

  // ---- pieces of text ------------------------------------------------------------------

  /** Reading on over text takes the document from d to e, whatever follows. */
  ghost predicate Takes(text: string, d: Doc, e: Doc) {
    forall rest: string :: ReadDoc(d, text + rest) == ReadDoc(e, rest)
  }

  lemma TakesNothing(d: Doc)
    ensures Takes("", d, d)
  {
    forall rest: string
      ensures ReadDoc(d, "" + rest) == ReadDoc(d, rest)
    {
      assert "" + rest == rest;
    }
  }

  lemma TakesBoth(a: string, b: string, d: Doc, e: Doc, f: Doc)
    requires Takes(a, d, e) && Takes(b, e, f)
    ensures Takes(a + b, d, f)
  {
    hide ReadDoc;
    forall rest: string
      ensures ReadDoc(d, (a + b) + rest) == ReadDoc(f, rest)
    {
      assert (a + b) + rest == a + (b + rest);
      assert ReadDoc(d, a + (b + rest)) == ReadDoc(e, b + rest);
    }
  }

  lemma TakesLine(line: string, d: Doc, e: Doc)
    requires '\n' !in line && ReadLine(d, line) == Some(e)
    ensures Takes(line + "\n", d, e)
  {
    hide ReadLine, IndexOf;
    forall rest: string
      ensures ReadDoc(d, line + "\n" + rest) == ReadDoc(e, rest)
    {
      var text := line + "\n" + rest;
      assert text[..|line|] == line && text[|line|] == '\n' && text[|line| + 1..] == rest;
      IndexAt(text, '\n', |line|);
    }
  }

  lemma TakesIf(b: bool, text: string, d: Doc, e: Doc)
    requires b ==> Takes(text, d, e)
    ensures Takes(Shown(b, text), d, if b then e else d)
  {
    hide Takes;
    TakesNothing(d);
  }

  function With(d: Doc, key: string, v: Value): Doc {
    Doc(d.section, d.settings + [Setting(d.section, key, v)])
  }

  predicate BareKey(key: string) {
    key != "" && key[0] != '"' && key[0] != '[' && ' ' !in key && '\n' !in key
  }

  /** One line of a bare key. */
  lemma TakesKey(d: Doc, key: string, value: string, v: Value)
    requires BareKey(key) && '\n' !in value && ReadValue(value) == Some(v)
    ensures Takes(key + " = " + value + "\n", d, With(d, key, v))
  {
    hide ReadValue, IndexOf;
    var line := key + " = " + value;
    assert line[..|key|] == key && line[|key|..] == " = " + value && line[|key|] == ' ';
    assert (" = " + value)[..3] == " = " && (" = " + value)[3..] == value;
    IndexAt(line, ' ', |key|);
    assert line[0] == key[0];
    TakesLine(line, d, With(d, key, v));
  }

  lemma QuotedIs(s: string)
    ensures ReadValue(Quoted(s)) == Some(Str(s)) && '\n' !in Quoted(s)
  {
    hide Unquote, EscapedText;
    UnquoteBack(s, "");
    var q := Quoted(s);
    assert "\"" + "" == "\"";
    assert q[1..] == EscapedText(s) + "\"";
    assert q[..1] == "\"";
  }

  lemma TakesText(d: Doc, key: string, s: string)
    requires BareKey(key)
    ensures Takes(key + " = " + Quoted(s) + "\n", d, With(d, key, Str(s)))
  {
    hide Quoted, ReadValue, BareKey, Takes;
    QuotedIs(s);
    TakesKey(d, key, Quoted(s), Str(s));
  }

  lemma TakesWord(d: Doc, key: string, word: string)
    requires BareKey(key) && word != "" && word[0] != '"' && word[0] != '[' && '\n' !in word
    ensures Takes(key + " = " + word + "\n", d, With(d, key, Bare(word)))
  {
    hide BareKey, Takes;
    assert word[..1][0] == word[0];
    assert |word| >= 2 ==> word[..2][0] == word[0];
    TakesKey(d, key, word, Bare(word));
  }

  /** One line of a quoted key. */
  lemma TakesNamed(d: Doc, name: string, s: string)
    ensures Takes(Quoted(name) + " = " + Quoted(s) + "\n", d, With(d, name, Str(s)))
  {
    hide Unquote, EscapedText, ReadValue, Takes;
    var q := Quoted(s);
    var line := Quoted(name) + " = " + q;
    QuotedIs(s);
    QuotedIs(name);
    UnquoteBack(name, " = " + q);
    assert line[1..] == EscapedText(name) + ("\"" + (" = " + q));
    assert (" = " + q)[..3] == " = " && (" = " + q)[3..] == q;
    assert line[0] == '"';
    TakesLine(line, d, With(d, name, Str(s)));
  }

  lemma TakesHeader(d: Doc, name: string)
    requires name != "" && '\n' !in name
    ensures Takes("\n[" + name + "]\n", d, Doc(name, d.settings))
  {
    hide Takes;
    var line := "[" + name + "]";
    TakesLine("", d, d);
    assert line[1..|line| - 1] == name;
    TakesLine(line, d, Doc(name, d.settings));
    TakesBoth("" + "\n", line + "\n", d, d, Doc(name, d.settings));
    assert ("" + "\n") + (line + "\n") == "\n[" + name + "]\n";
  }

  /** The section headers of the file. */
  lemma HeaderIs(d: Doc, name: string, text: string)
    requires (name, text) in {
      ("domain-fronting", "\n[domain-fronting]\n"), ("network", "\n[network]\n"), ("throttle", "\n[throttle]\n"),
      ("secret-ad-tags", "\n[secret-ad-tags]\n"), ("secrets", "\n[secrets]\n")}
    ensures Takes(text, d, Doc(name, d.settings))
  {
    hide Takes;
    assert "\n[" + name + "]\n" == text;
    TakesHeader(d, name);
  }

  // ---- the per-secret sections ------------------------------------------------------------

  function Opt(b: bool, s: Setting): seq<Setting> { if b then [s] else [] }

  /** The tagged entries' lines, in order. */
  function TagSettings(es: seq<SecretEntry>): seq<Setting> {
    if es == [] then []
    else
      var e := es[|es| - 1];
      TagSettings(es[..|es| - 1]) + Opt(e.adTag != "", Setting("secret-ad-tags", e.name, Str(e.adTag)))
  }

  /** at lists the places of exactly the entries with a tag, in order, and ss their settings. */
  ghost predicate TagsAt(es: seq<SecretEntry>, ss: seq<Setting>, at: seq<nat>) {
    && |at| == |ss|
    && (forall i, j :: 0 <= i < j < |at| ==> at[i] < at[j])
    && (forall i :: 0 <= i < |at| ==>
          at[i] < |es| && ss[i] == Setting("secret-ad-tags", es[at[i]].name, Str(es[at[i]].adTag)))
    && (forall k: nat :: k in at <==> k < |es| && es[k].adTag != "")
  }

  lemma {:induction false} TagSettingsAre(es: seq<SecretEntry>) returns (at: seq<nat>)
    ensures TagsAt(es, TagSettings(es), at)
  {
    hide TagsAt, Opt;
    if es == [] {
      at := [];
      NoTagsAt();
    } else {
      var n := |es| - 1;
      at := TagSettingsAre(es[..n]);
      assert es == es[..n] + [es[n]];
      OptIs(es[n].adTag != "", Setting("secret-ad-tags", es[n].name, Str(es[n].adTag)));
      TagsNext(es[..n], es[n], TagSettings(es[..n]), at);
      if es[n].adTag != "" {
        at := at + [n];
      } else {
        assert TagSettings(es[..n]) + [] == TagSettings(es[..n]);
      }
    }
  }

  lemma NoTagsAt()
    ensures TagsAt([], [], [])
  {
  }

  lemma TagsNext(es: seq<SecretEntry>, e: SecretEntry, ss: seq<Setting>, at: seq<nat>)
    requires TagsAt(es, ss, at)
    ensures e.adTag == "" ==> TagsAt(es + [e], ss, at)
    ensures e.adTag != "" ==>
      TagsAt(es + [e], ss + [Setting("secret-ad-tags", e.name, Str(e.adTag))], at + [|es|])
  {
    var all, more := es + [e], at + [|es|];
    assert all[|es|] == e && forall k :: 0 <= k < |es| ==> all[k] == es[k];
    assert forall k: nat :: k in more <==> k in at || k == |es|;
    assert forall i :: 0 <= i < |at| ==> at[i] in at;
  }

  lemma OptIs(b: bool, s: Setting)
    ensures Opt(b, s) == if b then [s] else []
  {
  }

  function SecretSettings(es: seq<SecretEntry>): (ss: seq<Setting>)
    ensures |ss| == |es| && forall i :: 0 <= i < |es| ==> ss[i] == Setting("secrets", es[i].name, Str(es[i].secret))
  {
    seq(|es|, i requires 0 <= i < |es| => Setting("secrets", es[i].name, Str(es[i].secret)))
  }

  lemma {:induction false} TakesTagLines(es: seq<SecretEntry>, d: Doc)
    requires d.section == "secret-ad-tags"
    ensures Takes(TagLines(es), d, Doc(d.section, d.settings + TagSettings(es)))
  {
    hide Takes, Quoted;
    if es == [] {
      assert d.settings + [] == d.settings;
      TakesNothing(d);
    } else {
      var n := |es| - 1;
      var e := es[n];
      var mid := Doc(d.section, d.settings + TagSettings(es[..n]));
      var line := Quoted(e.name) + " = " + Quoted(e.adTag) + "\n";
      TakesTagLines(es[..n], d);
      TakesNamed(mid, e.name, e.adTag);
      TakesIf(e.adTag != "", line, mid, With(mid, e.name, Str(e.adTag)));
      var end := if e.adTag != "" then With(mid, e.name, Str(e.adTag)) else mid;
      TakesBoth(TagLines(es[..n]), Shown(e.adTag != "", line), d, mid, end);
      assert end.settings == d.settings + TagSettings(es);
    }
  }

  lemma SecretSettingsNext(es: seq<SecretEntry>, n: nat)
    requires n + 1 == |es|
    ensures SecretSettings(es) == SecretSettings(es[..n]) + [Setting("secrets", es[n].name, Str(es[n].secret))]
  {
  }

  lemma NoSecretSettings()
    ensures SecretSettings([]) == []
  {
  }

  lemma {:induction false} TakesSecretLines(es: seq<SecretEntry>, d: Doc)
    requires d.section == "secrets"
    ensures Takes(SecretLines(es), d, Doc(d.section, d.settings + SecretSettings(es)))
  {
    hide Takes, Quoted, SecretSettings;
    if es == [] {
      NoSecretSettings();
      assert d.settings + [] == d.settings;
      TakesNothing(d);
    } else {
      var n := |es| - 1;
      var e := es[n];
      var mid := Doc(d.section, d.settings + SecretSettings(es[..n]));
      var line := Quoted(e.name) + " = " + Quoted(e.secret) + "\n";
      TakesSecretLines(es[..n], d);
      TakesNamed(mid, e.name, e.secret);
      TakesBoth(SecretLines(es[..n]), line, d, mid, With(mid, e.name, Str(e.secret)));
      assert SecretLines(es) == SecretLines(es[..n]) + line;
      SecretSettingsNext(es, n);
      assert d.settings + SecretSettings(es) == With(mid, e.name, Str(e.secret)).settings;
    }
  }

  lemma {:induction false} NoTagSettings(es: seq<SecretEntry>)
    requires !AnyTag(es)
    ensures TagSettings(es) == []
  {
    if es != [] {
      var n := |es| - 1;
      assert es[n].adTag == "";
      assert forall i :: 0 <= i < n ==> es[..n][i] == es[i];
      NoTagSettings(es[..n]);
    }
  }

  lemma TakesTagSection(es: seq<SecretEntry>, d: Doc) returns (e: Doc)
    ensures Takes(TagSection(es), d, e) && e.settings == d.settings + TagSettings(es)
  {
    hide Takes, TagLines, TagSettings, AnyTag;
    if AnyTag(es) {
      var mid := Doc("secret-ad-tags", d.settings);
      HeaderIs(d, "secret-ad-tags", "\n[secret-ad-tags]\n");
      TakesTagLines(es, mid);
      e := Doc(mid.section, d.settings + TagSettings(es));
      TakesBoth("\n[secret-ad-tags]\n", TagLines(es), d, mid, e);
    } else {
      NoTagLines(es);
      NoTagSettings(es);
      TakesNothing(d);
      assert "" + "" == "";
      e := d;
      assert d.settings + [] == d.settings;
    }
  }

  lemma TakesSections(es: seq<SecretEntry>, d: Doc)
    ensures Takes(SecretSections(es), d, Doc("secrets", d.settings + TagSettings(es) + SecretSettings(es)))
  {
    hide Takes, TagSection, SecretLines, TagSettings, SecretSettings;
    var e := TakesTagSection(es, d);
    var f := Doc("secrets", e.settings);
    HeaderIs(e, "secrets", "\n[secrets]\n");
    TakesBoth(TagSection(es), "\n[secrets]\n", d, e, f);
    TakesSecretLines(es, f);
    TakesBoth(TagSection(es) + "\n[secrets]\n", SecretLines(es), d, f, Doc("secrets", f.settings + SecretSettings(es)));
  }

  // ---- the lines before them -----------------------------------------------------------------

  /** d with one more setting, when there is one. */
  function WithIf(d: Doc, b: bool, key: string, v: Value): Doc {
    Doc(d.section, d.settings + Opt(b, Setting(d.section, key, v)))
  }

  lemma WithIfIs(d: Doc, b: bool, key: string, v: Value)
    ensures WithIf(d, b, key, v) == if b then With(d, key, v) else d
  {
  }

  lemma TakesTextIf(d: Doc, b: bool, key: string, s: string)
    requires BareKey(key)
    ensures Takes(Shown(b, key + " = " + Quoted(s) + "\n"), d, WithIf(d, b, key, Str(s)))
  {
    hide Takes, Quoted, BareKey, Shown;
    TakesText(d, key, s);
    TakesIf(b, key + " = " + Quoted(s) + "\n", d, With(d, key, Str(s)));
    WithIfIs(d, b, key, Str(s));
  }

  lemma TakesWordIf(d: Doc, b: bool, key: string, word: string)
    requires BareKey(key) && word != "" && word[0] != '"' && word[0] != '[' && '\n' !in word
    ensures Takes(Shown(b, key + " = " + word + "\n"), d, WithIf(d, b, key, Bare(word)))
  {
    hide Takes, BareKey, Shown;
    TakesWord(d, key, word);
    TakesIf(b, key + " = " + word + "\n", d, With(d, key, Bare(word)));
    WithIfIs(d, b, key, Bare(word));
  }

  /** Text that %q prints as it is. */
  predicate PlainText(s: string) {
    forall i :: 0 <= i < |s| ==> 32 <= s[i] as int < 127 && s[i] != '"' && s[i] != '\\'
  }

  lemma {:induction false} PlainEscaped(s: string)
    requires PlainText(s)
    ensures EscapedText(s) == s
  {
    if s != "" {
      PlainEscaped(s[1..]);
    }
  }

  lemma LocalIs(head: string, port: int)
    requires PlainText(head)
    ensures Quoted(head + Itoa(port)) == "\"" + (head + Itoa(port)) + "\""
  {
    hide EscapedText;
    PlainEscaped(head + Itoa(port));
  }

  lemma Listed(d: Doc, b: bool, key: string, v: Value)
    ensures WithIf(d, b, key, v).section == d.section
    ensures WithIf(d, b, key, v).settings == d.settings + Opt(b, Setting(d.section, key, v))
  {
  }

  /** One more line of text, if it is there. */
  lemma NextText(t: string, d: Doc, e: Doc, b: bool, key: string, s: string, piece: string) returns (f: Doc)
    requires Takes(t, d, e) && BareKey(key) && piece == key + " = " + Quoted(s) + "\n"
    ensures Takes(t + Shown(b, piece), d, f)
    ensures f == Doc(e.section, e.settings + Opt(b, Setting(e.section, key, Str(s))))
  {
    hide Takes, BareKey, Quoted, Shown, Opt;
    f := WithIf(e, b, key, Str(s));
    TakesTextIf(e, b, key, s);
    TakesBoth(t, Shown(b, piece), d, e, f);
  }

  lemma NextWord(t: string, d: Doc, e: Doc, b: bool, key: string, word: string, piece: string) returns (f: Doc)
    requires Takes(t, d, e) && BareKey(key) && piece == key + " = " + word + "\n"
    requires word != "" && word[0] != '"' && word[0] != '[' && '\n' !in word
    ensures Takes(t + Shown(b, piece), d, f)
    ensures f == Doc(e.section, e.settings + Opt(b, Setting(e.section, key, Bare(word))))
  {
    hide Takes, BareKey, Shown, Opt;
    f := WithIf(e, b, key, Bare(word));
    TakesWordIf(e, b, key, word);
    TakesBoth(t, Shown(b, piece), d, e, f);
  }

  lemma WordsAreWords(n: int)
    ensures "true" != "" && "true"[0] == 't' && '\n' !in "true"
    ensures Itoa(n) != "" && Itoa(n)[0] != '"' && Itoa(n)[0] != '[' && '\n' !in Itoa(n)
  {
  }

  lemma BindIs(inst: Instance)
    ensures BindLine(inst) == Shown(true, "bind-to" + " = " + Quoted(BindTo(inst)) + "\n")
    ensures BareKey("bind-to")
  {
    hide Quoted, BindTo;
    assert "bind-to" + " = " == "bind-to = ";
  }

  lemma ApiIs(apiPort: int)
    ensures ApiLine(apiPort) == Shown(true, "api-bind-to" + " = " + Quoted("127.0.0.1:" + Itoa(apiPort)) + "\n")
    ensures BareKey("api-bind-to")
  {
    hide Quoted, Itoa;
    LocalIs("127.0.0.1:", apiPort);
    assert "api-bind-to" + " = " + "\"" + "127.0.0.1:" == "api-bind-to = \"127.0.0.1:";
  }

  lemma FlagIs(key: string, line: string)
    requires (key, line) in {("debug", "debug = true\n"), ("proxy-protocol", "proxy-protocol = true\n"),
                             ("proxy-protocol-listener", "proxy-protocol-listener = true\n")}
    ensures BareKey(key) && line == key + " = " + "true" + "\n"
  {
  }

  lemma TextKeyIs(key: string, head: string, q: string)
    requires (key, head) in {("prefer-ip", "prefer-ip = "), ("api-token", "api-token = "),
                             ("public-ipv4", "public-ipv4 = "), ("public-ipv6", "public-ipv6 = "),
                             ("host", "host = "), ("port", "port = "), ("max-connections", "max-connections = ")}
    ensures BareKey(key) && head + q + "\n" == key + " = " + q + "\n"
  {
  }

  lemma TakesTop(inst: Instance, apiPort: int, apiToken: string) returns (e: Doc)
    ensures Takes(
      BindLine(inst) + Shown(inst.debug, "debug = true\n")
        + Shown(inst.proxyProtocolListener, "proxy-protocol-listener = true\n")
        + Shown(inst.preferIP != "", "prefer-ip = " + Quoted(inst.preferIP) + "\n")
        + ApiLine(apiPort)
        + Shown(apiToken != "", "api-token = " + Quoted(apiToken) + "\n")
        + Shown(inst.publicIPv4 != "", "public-ipv4 = " + Quoted(inst.publicIPv4) + "\n")
        + Shown(inst.publicIPv6 != "", "public-ipv6 = " + Quoted(inst.publicIPv6) + "\n"),
      Doc("", []), e)
    ensures e == Doc("", [] + Opt(true, Setting("", "bind-to", Str(BindTo(inst))))
      + Opt(inst.debug, Setting("", "debug", Bare("true")))
      + Opt(inst.proxyProtocolListener, Setting("", "proxy-protocol-listener", Bare("true")))
      + Opt(inst.preferIP != "", Setting("", "prefer-ip", Str(inst.preferIP)))
      + Opt(true, Setting("", "api-bind-to", Str("127.0.0.1:" + Itoa(apiPort))))
      + Opt(apiToken != "", Setting("", "api-token", Str(apiToken)))
      + Opt(inst.publicIPv4 != "", Setting("", "public-ipv4", Str(inst.publicIPv4)))
      + Opt(inst.publicIPv6 != "", Setting("", "public-ipv6", Str(inst.publicIPv6))))
  {
    hide Takes, BareKey, Quoted, Shown, Opt, BindLine, ApiLine, BindTo, Itoa;
    var d, t := Doc("", []), "";
    TakesNothing(d);
    BindIs(inst);
    e := NextText("", d, d, true, "bind-to", BindTo(inst), "bind-to" + " = " + Quoted(BindTo(inst)) + "\n");
    t := BindLine(inst);
    assert "" + t == t;
    WordsAreWords(0);
    FlagIs("debug", "debug = true\n");
    e := NextWord(t, d, e, inst.debug, "debug", "true", "debug = true\n");
    t := t + Shown(inst.debug, "debug = true\n");
    FlagIs("proxy-protocol-listener", "proxy-protocol-listener = true\n");
    e := NextWord(t, d, e, inst.proxyProtocolListener, "proxy-protocol-listener", "true",
      "proxy-protocol-listener = true\n");
    t := t + Shown(inst.proxyProtocolListener, "proxy-protocol-listener = true\n");
    TextKeyIs("prefer-ip", "prefer-ip = ", Quoted(inst.preferIP));
    e := NextText(t, d, e, inst.preferIP != "", "prefer-ip", inst.preferIP,
      "prefer-ip = " + Quoted(inst.preferIP) + "\n");
    t := t + Shown(inst.preferIP != "", "prefer-ip = " + Quoted(inst.preferIP) + "\n");
    ApiIs(apiPort);
    e := NextText(t, d, e, true, "api-bind-to", "127.0.0.1:" + Itoa(apiPort),
      "api-bind-to" + " = " + Quoted("127.0.0.1:" + Itoa(apiPort)) + "\n");
    t := t + ApiLine(apiPort);
    TextKeyIs("api-token", "api-token = ", Quoted(apiToken));
    e := NextText(t, d, e, apiToken != "", "api-token", apiToken, "api-token = " + Quoted(apiToken) + "\n");
    t := t + Shown(apiToken != "", "api-token = " + Quoted(apiToken) + "\n");
    TextKeyIs("public-ipv4", "public-ipv4 = ", Quoted(inst.publicIPv4));
    e := NextText(t, d, e, inst.publicIPv4 != "", "public-ipv4", inst.publicIPv4,
      "public-ipv4 = " + Quoted(inst.publicIPv4) + "\n");
    t := t + Shown(inst.publicIPv4 != "", "public-ipv4 = " + Quoted(inst.publicIPv4) + "\n");
    TextKeyIs("public-ipv6", "public-ipv6 = ", Quoted(inst.publicIPv6));
    e := NextText(t, d, e, inst.publicIPv6 != "", "public-ipv6", inst.publicIPv6,
      "public-ipv6 = " + Quoted(inst.publicIPv6) + "\n");
  }

  lemma FrontingIs(inst: Instance)
    ensures FrontingText(inst)
      == if inst.frontingIP != "" || inst.frontingPort > 0 || inst.frontingProxyProtocol then
        "\n[domain-fronting]\n"
          + Shown(inst.frontingIP != "", "host = " + Quoted(inst.frontingIP) + "\n")
          + Shown(inst.frontingPort > 0, "port = " + Itoa(inst.frontingPort) + "\n")
          + Shown(inst.frontingProxyProtocol, "proxy-protocol = true\n")
      else ""
  {
    hide Quoted, Itoa, Shown;
  }

  lemma TakesFronting(inst: Instance, d: Doc) returns (e: Doc)
    ensures Takes(FrontingText(inst), d, e)
    ensures e.settings == d.settings
      + Opt(inst.frontingIP != "", Setting("domain-fronting", "host", Str(inst.frontingIP)))
      + Opt(inst.frontingPort > 0, Setting("domain-fronting", "port", Bare(Itoa(inst.frontingPort))))
      + Opt(inst.frontingProxyProtocol, Setting("domain-fronting", "proxy-protocol", Bare("true")))
  {
    hide Takes, BareKey, Quoted, Shown, Itoa, Opt, FrontingText;
    FrontingIs(inst);
    if inst.frontingIP != "" || inst.frontingPort > 0 || inst.frontingProxyProtocol {
      var t := "\n[domain-fronting]\n";
      var f := Doc("domain-fronting", d.settings);
      HeaderIs(d, "domain-fronting", t);
      TextKeyIs("host", "host = ", Quoted(inst.frontingIP));
      f := NextText(t, d, f, inst.frontingIP != "", "host", inst.frontingIP,
        "host = " + Quoted(inst.frontingIP) + "\n");
      t := t + Shown(inst.frontingIP != "", "host = " + Quoted(inst.frontingIP) + "\n");
      WordsAreWords(inst.frontingPort);
      TextKeyIs("port", "port = ", Itoa(inst.frontingPort));
      f := NextWord(t, d, f, inst.frontingPort > 0, "port", Itoa(inst.frontingPort),
        "port = " + Itoa(inst.frontingPort) + "\n");
      t := t + Shown(inst.frontingPort > 0, "port = " + Itoa(inst.frontingPort) + "\n");
      FlagIs("proxy-protocol", "proxy-protocol = true\n");
      e := NextWord(t, d, f, inst.frontingProxyProtocol, "proxy-protocol", "true", "proxy-protocol = true\n");
    } else {
      TakesNothing(d);
      e := d;
      NoSetting(Setting("domain-fronting", "host", Str(inst.frontingIP)), d.settings);
      NoSetting(Setting("domain-fronting", "port", Bare(Itoa(inst.frontingPort))), d.settings);
      NoSetting(Setting("domain-fronting", "proxy-protocol", Bare("true")), d.settings);
    }
  }

  lemma NoSetting(s: Setting, before: seq<Setting>)
    ensures before + Opt(false, s) == before
  {
  }

  lemma TakesProxies(inst: Instance, d: Doc) returns (e: Doc)
    ensures var shown := inst.routeThroughXray && inst.xrayRoutePort > 0;
      var port := Itoa(inst.xrayRoutePort);
      && Takes(Shown(shown, "\n[network]\nproxies = [\"socks5://127.0.0.1:" + port + "\"]\n"), d, e)
      && e.settings == d.settings + Opt(shown, Setting("network", "proxies", OneStr("socks5://127.0.0.1:" + port)))
  {
    hide Takes, BareKey, Shown, Itoa, Opt;
    var shown := inst.routeThroughXray && inst.xrayRoutePort > 0;
    var url := "socks5://127.0.0.1:" + Itoa(inst.xrayRoutePort);
    var f := Doc("network", d.settings);
    HeaderIs(d, "network", "\n[network]\n");
    ProxiesValue(inst.xrayRoutePort);
    TakesKey(f, "proxies", "[\"" + url + "\"]", OneStr(url));
    var line := "proxies" + " = " + ("[\"" + url + "\"]") + "\n";
    TakesBoth("\n[network]\n", line, d, f, With(f, "proxies", OneStr(url)));
    ProxiesText(Itoa(inst.xrayRoutePort));
    TakesIf(shown, "\n[network]\n" + line, d, With(f, "proxies", OneStr(url)));
    e := if shown then With(f, "proxies", OneStr(url)) else d;
    OptIs(shown, Setting("network", "proxies", OneStr(url)));
  }

  lemma ProxiesText(port: string)
    ensures "\n[network]\n" + ("proxies" + " = " + ("[\"" + ("socks5://127.0.0.1:" + port) + "\"]") + "\n")
      == "\n[network]\nproxies = [\"socks5://127.0.0.1:" + port + "\"]\n"
  {
    assert "\n[network]\n" + "proxies" + " = " + "[\"" + "socks5://127.0.0.1:"
      == "\n[network]\nproxies = [\"socks5://127.0.0.1:";
  }

  lemma ProxiesValue(port: int)
    ensures var url := "socks5://127.0.0.1:" + Itoa(port);
      ReadValue("[\"" + url + "\"]") == Some(OneStr(url)) && '\n' !in "[\"" + url + "\"]"
    ensures BareKey("proxies")
  {
    hide Itoa, Unquote, EscapedText, ReadValue;
    var url := "socks5://127.0.0.1:" + Itoa(port);
    PlainEscaped(url);
    UnquoteBack(url, "]");
    ReadsOne(url);
  }

  lemma ReadsOne(url: string)
    requires Unquote(url + ("\"" + "]")) == Some((url, "]"))
    ensures ReadValue("[\"" + url + "\"]") == Some(OneStr(url))
  {
    hide Unquote;
    var v := "[\"" + url + "\"]";
    assert v[2..] == url + ("\"" + "]") && v[..2] == "[\"" && v[..1][0] == '[';
  }

  lemma TakesThrottle(inst: Instance, d: Doc) returns (e: Doc)
    ensures var shown, n := inst.throttleMaxConnections > 0, Itoa(inst.throttleMaxConnections);
      && Takes(Shown(shown, "\n[throttle]\nmax-connections = " + n + "\n"), d, e)
      && e.settings == d.settings + Opt(shown, Setting("throttle", "max-connections", Bare(n)))
  {
    hide Takes, BareKey, Shown, Itoa, Opt;
    var shown, n := inst.throttleMaxConnections > 0, Itoa(inst.throttleMaxConnections);
    var f := Doc("throttle", d.settings);
    HeaderIs(d, "throttle", "\n[throttle]\n");
    WordsAreWords(inst.throttleMaxConnections);
    TextKeyIs("max-connections", "max-connections = ", n);
    TakesWord(f, "max-connections", n);
    var line := "max-connections" + " = " + n + "\n";
    TakesBoth("\n[throttle]\n", line, d, f, With(f, "max-connections", Bare(n)));
    ThrottleText(n);
    TakesIf(shown, "\n[throttle]\n" + line, d, With(f, "max-connections", Bare(n)));
    e := if shown then With(f, "max-connections", Bare(n)) else d;
    OptIs(shown, Setting("throttle", "max-connections", Bare(n)));
  }

  lemma ThrottleText(n: string)
    ensures "\n[throttle]\n" + ("max-connections" + " = " + n + "\n")
      == "\n[throttle]\nmax-connections = " + n + "\n"
  {
  }

  /**
   Read back, the rendered file holds these settings in this order and no other: every field of
   the instance where it belongs, the tagged names with their tags, and every name with its secret.
   */
  lemma RenderedReadsBack(inst: Instance, apiPort: int, apiToken: string)
    ensures ReadDoc(Doc("", []), RenderText(inst, apiPort, apiToken)) == Some(Doc("secrets",
      [Setting("", "bind-to", Str((if inst.listen == "" then "0.0.0.0" else inst.listen) + ":" + Itoa(inst.port)))]
        + Opt(inst.debug, Setting("", "debug", Bare("true")))
        + Opt(inst.proxyProtocolListener, Setting("", "proxy-protocol-listener", Bare("true")))
        + Opt(inst.preferIP != "", Setting("", "prefer-ip", Str(inst.preferIP)))
        + [Setting("", "api-bind-to", Str("127.0.0.1:" + Itoa(apiPort)))]
        + Opt(apiToken != "", Setting("", "api-token", Str(apiToken)))
        + Opt(inst.publicIPv4 != "", Setting("", "public-ipv4", Str(inst.publicIPv4)))
        + Opt(inst.publicIPv6 != "", Setting("", "public-ipv6", Str(inst.publicIPv6)))
        + Opt(inst.frontingIP != "", Setting("domain-fronting", "host", Str(inst.frontingIP)))
        + Opt(inst.frontingPort > 0, Setting("domain-fronting", "port", Bare(Itoa(inst.frontingPort))))
        + Opt(inst.frontingProxyProtocol, Setting("domain-fronting", "proxy-protocol", Bare("true")))
        + Opt(inst.routeThroughXray && inst.xrayRoutePort > 0,
              Setting("network", "proxies", OneStr("socks5://127.0.0.1:" + Itoa(inst.xrayRoutePort))))
        + Opt(inst.throttleMaxConnections > 0,
              Setting("throttle", "max-connections", Bare(Itoa(inst.throttleMaxConnections))))
        + TagSettings(inst.secrets)
        + SecretSettings(inst.secrets)))
  {
    hide Takes, BindLine, ApiLine, Quoted, Itoa, Shown, FrontingText, SecretSections, TagSettings, ReadDoc, Opt;
    var d := Doc("", []);
    OptIs(true, Setting("", "bind-to", Str(BindTo(inst))));
    OptIs(true, Setting("", "api-bind-to", Str("127.0.0.1:" + Itoa(apiPort))));
    assert [] + [Setting("", "bind-to", Str(BindTo(inst)))] == [Setting("", "bind-to", Str(BindTo(inst)))];
    var top := TakesTop(inst, apiPort, apiToken);
    var fronting := TakesFronting(inst, top);
    var network := TakesProxies(inst, fronting);
    var throttle := TakesThrottle(inst, network);
    var all := Doc("secrets", throttle.settings + TagSettings(inst.secrets) + SecretSettings(inst.secrets));
    TakesSections(inst.secrets, throttle);
    var t := TopOf(inst, apiPort, apiToken);
    TakesBoth(t, FrontingText(inst), d, top, fronting);
    t := t + FrontingText(inst);
    TakesBoth(t, NetworkOf(inst), d, fronting, network);
    t := t + NetworkOf(inst);
    TakesBoth(t, ThrottleOf(inst), d, network, throttle);
    t := t + ThrottleOf(inst);
    TakesBoth(t, SecretSections(inst.secrets), d, throttle, all);
    ReadsWhole(t + SecretSections(inst.secrets), d, all);
  }

  lemma ReadsWhole(text: string, d: Doc, e: Doc)
    requires Takes(text, d, e)
    ensures ReadDoc(d, text) == Some(e)
  {
    assert text + "" == text;
    assert ReadDoc(d, text + "") == ReadDoc(e, "");
  }

  function TopOf(inst: Instance, apiPort: int, apiToken: string): string {
    BindLine(inst) + Shown(inst.debug, "debug = true\n")
      + Shown(inst.proxyProtocolListener, "proxy-protocol-listener = true\n")
      + Shown(inst.preferIP != "", "prefer-ip = " + Quoted(inst.preferIP) + "\n")
      + ApiLine(apiPort)
      + Shown(apiToken != "", "api-token = " + Quoted(apiToken) + "\n")
      + Shown(inst.publicIPv4 != "", "public-ipv4 = " + Quoted(inst.publicIPv4) + "\n")
      + Shown(inst.publicIPv6 != "", "public-ipv6 = " + Quoted(inst.publicIPv6) + "\n")
  }

  function NetworkOf(inst: Instance): string {
    Shown(inst.routeThroughXray && inst.xrayRoutePort > 0,
          "\n[network]\nproxies = [\"socks5://127.0.0.1:" + Itoa(inst.xrayRoutePort) + "\"]\n")
  }

  function ThrottleOf(inst: Instance): string {
    Shown(inst.throttleMaxConnections > 0,
          "\n[throttle]\nmax-connections = " + Itoa(inst.throttleMaxConnections) + "\n")
  }

  // ---- TOML's own escapes ------------------------------------------------------------------

  /** Inside the quotes of a TOML basic string: a backslash starts one of TOML's one-letter escapes. */
  predicate TomlString(t: string) {
    || t == ""
    || (t[0] != '\\' && t[0] != '"' && t[0] as int >= 32 && t[0] as int != 127 && TomlString(t[1..]))
    || (t[0] == '\\' && |t| >= 2 && t[1] in {'b', 't', 'n', 'f', 'r', '"', '\\'} && TomlString(t[2..]))
  }

  /** Characters %q prints with an escape that TOML does not have. */
  predicate Foreign(c: char) {
    (c as int < 32 && c as int !in {8, 9, 10, 12, 13}) || c as int == 127
  }

  /** A field is printed as a TOML string exactly when it holds no such character. */
  lemma {:induction false} TomlExactly(s: string)
    ensures TomlString(EscapedText(s)) <==> forall i :: 0 <= i < |s| ==> !Foreign(s[i])
  {
    hide Escaped, Foreign, TomlString;
    if s == "" {
      TomlChar(' ', "");
    } else {
      TomlExactly(s[1..]);
      TomlChar(s[0], EscapedText(s[1..]));
      assert (forall i :: 0 <= i < |s| ==> !Foreign(s[i]))
        <==> !Foreign(s[0]) && forall i :: 0 <= i < |s[1..]| ==> !Foreign(s[1..][i]) by {
        assert forall i :: 0 <= i < |s[1..]| ==> s[1..][i] == s[i + 1];
        assert forall i :: 1 <= i < |s| ==> s[i] == s[1..][i - 1];
      }
    }
  }

  lemma TomlChar(c: char, more: string)
    ensures TomlString("") && (TomlString(Escaped(c) + more) <==> !Foreign(c) && TomlString(more))
  {
    hide HexDigits;
    ReadEscape(Escaped(c), more);
  }
}
