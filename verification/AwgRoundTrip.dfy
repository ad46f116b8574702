/**
 Parsing a printed AmneziaWG configuration recovers what was printed, for any newline-free
 field values and any number of peers.
 */
module AwgRoundTrip {
  import opened Prelude
  import opened Text
  import opened AwgConfig

  predicate OneLine(s: string) { '\n' !in s }

  // ---- one key line -----------------------------------------------------------------

  /** A key the printer writes: visible at both ends, not opening a comment or a section, free of '='. */
  predicate PlainKey(key: string) {
    key != "" && Tight(key) && key[0] != '#' && key[0] != '[' && '=' !in key && '\n' !in key
  }

  lemma KeyLineCut(key: string, value: string)
    requires PlainKey(key)
    ensures var line := TrimSpace(key + " = " + value);
      && line != "" && line[0] == key[0]
      && Cut(line, '=').Some?
      && TrimSpace(Cut(line, '=').value.0) == key
      && TrimSpace(Cut(line, '=').value.1) == TrimSpace(value)
  {
    var head, tail := key + " =", " " + value;
    assert key + " = " + value == head + tail;
    TrimKeepsHead(head, tail);
    var line := head + TrimRight(tail);
    assert line == (key + " ") + ['='] + TrimRight(tail);
    CutAt(key + " ", '=', TrimRight(tail));
    TightTrims(key);
    TrimAround("", key, " ");
    assert "" + key + " " == key + " ";
    TrimOfTrimRight(tail);
    TrimAround(" ", value, "");
    assert tail == tail + "";
  }

  lemma KeyLineStep(st: State, key: string, value: string)
    requires PlainKey(key)
    ensures st.section == "interface" ==>
      StepLine(st, key + " = " + value) == st.(parsed := AssignInterfaceField(st.parsed, key, TrimSpace(value)))
    ensures st.section == "peer" && st.peer.Some? ==>
      StepLine(st, key + " = " + value) == st.(peer := Some(AssignPeerField(st.peer.value, key, TrimSpace(value))))
  {
    hide IsSpace, TrimSpace, Cut, AssignInterfaceField, AssignPeerField, Flush, TrimBrackets;
    KeyLineCut(key, value);
    var line := TrimSpace(key + " = " + value);
    assert !HasPrefix(line, "#") && !HasPrefix(line, "[");
  }

  // ---- running a growing list of lines -------------------------------------------------

  /** lines are single lines and leave the parser in st. */
  ghost predicate Reads(lines: seq<string>, st: State) {
    && lines != [] && (forall i :: 0 <= i < |lines| ==> OneLine(lines[i]))
    && RunLines(lines) == st
  }

  lemma ReadOne(lines: seq<string>, st: State, line: string)
    requires (lines == [] && st == Start) || Reads(lines, st)
    requires OneLine(line)
    ensures Reads(lines + [line], StepLine(st, line))
  {
    var all := lines + [line];
    assert all[..|all| - 1] == lines && all[|all| - 1] == line;
  }

  lemma ReadInterfaceKey(lines: seq<string>, st: State, shown: bool, key: string, value: string)
    requires Reads(lines, st) && st.section == "interface"
    requires PlainKey(key) && OneLine(value)
    ensures Reads(lines + Opt(shown, key, value),
                  if shown then st.(parsed := AssignInterfaceField(st.parsed, key, TrimSpace(value))) else st)
  {
    if shown {
      KeyLineStep(st, key, value);
      ReadOne(lines, st, key + " = " + value);
    } else {
      assert lines + Opt(shown, key, value) == lines;
    }
  }

  lemma ReadPeerKey(lines: seq<string>, st: State, shown: bool, key: string, value: string)
    requires Reads(lines, st) && st.section == "peer" && st.peer.Some?
    requires PlainKey(key) && OneLine(value)
    ensures Reads(lines + Opt(shown, key, value),
                  if shown then st.(peer := Some(AssignPeerField(st.peer.value, key, TrimSpace(value)))) else st)
  {
    if shown {
      KeyLineStep(st, key, value);
      ReadOne(lines, st, key + " = " + value);
    } else {
      assert lines + Opt(shown, key, value) == lines;
    }
  }

  function InInterface(p: ParsedInterface): State {
    State("interface", None, "", p)
  }

  lemma VisibleBrackets()
    ensures !IsSpace('[') && !IsSpace(']')
  {
  }

  lemma InterfaceHeaderName()
    ensures ToLower(TrimBrackets("[Interface]")) == "interface"
    ensures HasPrefix("[Interface]", "[") && HasSuffix("[Interface]", "]")
  {
    assert TrimBrackets("Interface]") == "Interface";
    assert TrimBrackets("[Interface]") == "Interface";
  }

  lemma HeaderStep(line: string)
    requires TrimSpace(line) == line && line != "" && line[0] == '['
    requires HasPrefix(line, "[") && HasSuffix(line, "]") && ToLower(TrimBrackets(line)) == "interface"
    ensures StepLine(Start, line) == InInterface(NewInterface)
  {
    hide TrimSpace, ToLower, TrimBrackets;
  }

  lemma ReadHeader()
    ensures Reads(["[Interface]"], InInterface(NewInterface))
  {
    hide IsSpace, TrimSpace;
    VisibleBrackets();
    var line := "[Interface]";
    TightTrims(line);
    InterfaceHeaderName();
    HeaderStep(line);
    ReadOne([], Start, line);
    assert [] + [line] == [line];
  }

  // ---- the interface section ---------------------------------------------------------------

  /** The values the settings may carry: anything on a single line. */
  predicate SingleLines(s: Settings, host: Host) {
    && OneLine(s.secretKey) && OneLine(s.address)
    && OneLine(s.h1) && OneLine(s.h2) && OneLine(s.h3) && OneLine(s.h4)
    && OneLine(s.i1) && OneLine(s.i2) && OneLine(s.i3) && OneLine(s.i4) && OneLine(s.i5)
    && OneLine(s.externalInterface) && OneLine(s.postUp) && OneLine(s.postDown)
    && OneLine(host.defaultInterface) && OneLine(host.interfaceName) && OneLine(host.ipv4Prefix)
  }

  lemma TrimOneLine(s: string)
    requires OneLine(s)
    ensures OneLine(TrimSpace(s))
  {
    var i, j := TrimShape(s);
  }

  function AfterStart(s: Settings, port: Int64): ParsedInterface {
    NewInterface.(privateKey := TrimSpace(s.secretKey), address := ServerAddr(s), listenPort := port,
                  mtu := if s.mtu > 0 then s.mtu else 0)
  }

  function AfterJunk(p: ParsedInterface, s: Settings): ParsedInterface {
    p.(jc := s.jc, jmin := s.jmin, jmax := s.jmax, s1 := s.s1, s2 := s.s2, s3 := s.s3, s4 := s.s4)
  }

  function AfterHeaders(p: ParsedInterface, s: Settings): ParsedInterface {
    p.(h1 := TrimSpace(s.h1), h2 := TrimSpace(s.h2), h3 := TrimSpace(s.h3), h4 := TrimSpace(s.h4),
       i1 := TrimSpace(s.i1), i2 := TrimSpace(s.i2), i3 := TrimSpace(s.i3), i4 := TrimSpace(s.i4),
       i5 := TrimSpace(s.i5))
  }

  function AfterHooks(p: ParsedInterface, s: Settings, host: Host): ParsedInterface {
    p.(postUp := BuildPostUp(s, host), postDown := BuildPostDown(s, host))
  }

  lemma ItoaReads(n: Int64)
    ensures OneLine(Itoa(n)) && TrimSpace(Itoa(n)) == Itoa(n) && ParseInt(TrimSpace(Itoa(n))).value == n
  {
    ItoaTight(n);
    TightTrims(Itoa(n));
    ParseItoa(n);
  }

  lemma ServerAddrReads(s: Settings)
    requires OneLine(s.address)
    ensures OneLine(ServerAddr(s)) && TrimSpace(ServerAddr(s)) == ServerAddr(s)
  {
    TrimOneLine(s.address);
    TrimIsTight(s.address);
    TightTrims(ServerAddr(s));
  }

  // Each key of the interface section, and the field it sets.  All but DNS are printed.

  datatype Key = PrivateKey | Address | ListenPort | MTU | DNS | Jc | Jmin | Jmax | S1 | S2 | S3 | S4
    | H1 | H2 | H3 | H4 | I1 | I2 | I3 | I4 | I5 | PostUp | PostDown

  function Name(k: Key): string {
    match k
    case PrivateKey => "PrivateKey" case Address => "Address" case ListenPort => "ListenPort" case MTU => "MTU"
    case DNS => "DNS"
    case Jc => "Jc" case Jmin => "Jmin" case Jmax => "Jmax"
    case S1 => "S1" case S2 => "S2" case S3 => "S3" case S4 => "S4"
    case H1 => "H1" case H2 => "H2" case H3 => "H3" case H4 => "H4"
    case I1 => "I1" case I2 => "I2" case I3 => "I3" case I4 => "I4" case I5 => "I5"
    case PostUp => "PostUp" case PostDown => "PostDown"
  }

  function Lower(k: Key): string {
    match k
    case PrivateKey => "privatekey" case Address => "address" case ListenPort => "listenport" case MTU => "mtu"
    case DNS => "dns"
    case Jc => "jc" case Jmin => "jmin" case Jmax => "jmax"
    case S1 => "s1" case S2 => "s2" case S3 => "s3" case S4 => "s4"
    case H1 => "h1" case H2 => "h2" case H3 => "h3" case H4 => "h4"
    case I1 => "i1" case I2 => "i2" case I3 => "i3" case I4 => "i4" case I5 => "i5"
    case PostUp => "postup" case PostDown => "postdown"
  }

  function Set(p: ParsedInterface, k: Key, v: string): ParsedInterface {
    match k
    case PrivateKey => p.(privateKey := v)
    case Address => p.(address := v)
    case ListenPort => p.(listenPort := ParseInt(v).value)
    case MTU => p.(mtu := ParseInt(v).value)
    case DNS => p.(dns := v)
    case Jc => p.(jc := ParseInt(v).value)
    case Jmin => p.(jmin := ParseInt(v).value)
    case Jmax => p.(jmax := ParseInt(v).value)
    case S1 => p.(s1 := ParseInt(v).value)
    case S2 => p.(s2 := ParseInt(v).value)
    case S3 => p.(s3 := ParseInt(v).value)
    case S4 => p.(s4 := ParseInt(v).value)
    case H1 => p.(h1 := v)
    case H2 => p.(h2 := v)
    case H3 => p.(h3 := v)
    case H4 => p.(h4 := v)
    case I1 => p.(i1 := v)
    case I2 => p.(i2 := v)
    case I3 => p.(i3 := v)
    case I4 => p.(i4 := v)
    case I5 => p.(i5 := v)
    case PostUp => p.(postUp := v)
    case PostDown => p.(postDown := v)
  }

  lemma LongNames()
    ensures PlainKey("PrivateKey") && PlainKey("Address") && PlainKey("ListenPort")
  {
  }

  lemma LongKeyNames(k: Key)
    requires k.PrivateKey? || k.Address? || k.ListenPort?
    ensures PlainKey(Name(k)) && ToLower(Name(k)) == Lower(k)
  {
    hide PlainKey;
    LongNames();
    assert ToLower("PrivateKey") == "privatekey";
    assert ToLower("Address") == "address";
    assert ToLower("ListenPort") == "listenport";
  }

  lemma JunkKeyNames(k: Key)
    requires k.MTU? || k.DNS? || k.Jc? || k.Jmin? || k.Jmax? || k.S1? || k.S2? || k.S3? || k.S4?
    ensures PlainKey(Name(k)) && ToLower(Name(k)) == Lower(k)
  {
  }

  lemma HeaderKeyNames(k: Key)
    requires k.H1? || k.H2? || k.H3? || k.H4? || k.I1? || k.I2? || k.I3? || k.I4? || k.I5?
    ensures PlainKey(Name(k)) && ToLower(Name(k)) == Lower(k)
  {
  }

  lemma HookKeyNames(k: Key)
    requires k.PostUp? || k.PostDown?
    ensures PlainKey(Name(k)) && ToLower(Name(k)) == Lower(k)
  {
  }

  lemma KeyNames(k: Key)
    ensures PlainKey(Name(k)) && ToLower(Name(k)) == Lower(k)
  {
    hide PlainKey, ToLower, Name, Lower;
    if k.PrivateKey? || k.Address? || k.ListenPort? {
      LongKeyNames(k);
    } else if k.PostUp? || k.PostDown? {
      HookKeyNames(k);
    } else if k.H1? || k.H2? || k.H3? || k.H4? || k.I1? || k.I2? || k.I3? || k.I4? || k.I5? {
      HeaderKeyNames(k);
    } else {
      JunkKeyNames(k);
    }
  }

  lemma LongOrHookSets(k: Key, p: ParsedInterface, key: string, v: string)
    requires ToLower(key) == Lower(k) && (k.PrivateKey? || k.Address? || k.ListenPort? || k.PostUp? || k.PostDown?)
    ensures AssignInterfaceField(p, key, v) == Set(p, k, v)
  {
    hide ToLower, ParseInt;
  }

  lemma JunkSets(k: Key, p: ParsedInterface, key: string, v: string)
    requires ToLower(key) == Lower(k)
    requires k.MTU? || k.DNS? || k.Jc? || k.Jmin? || k.Jmax? || k.S1? || k.S2? || k.S3? || k.S4?
    ensures AssignInterfaceField(p, key, v) == Set(p, k, v)
  {
    hide ToLower, ParseInt;
  }

  lemma KeySets(k: Key, p: ParsedInterface, key: string, v: string)
    requires ToLower(key) == Lower(k)
    ensures AssignInterfaceField(p, key, v) == Set(p, k, v)
  {
    hide ToLower, ParseInt, AssignInterfaceField, Lower, Set;
    if k.PrivateKey? || k.Address? || k.ListenPort? || k.PostUp? || k.PostDown? {
      LongOrHookSets(k, p, key, v);
    } else if k.H1? || k.H2? || k.H3? || k.H4? || k.I1? || k.I2? || k.I3? || k.I4? || k.I5? {
      HeaderSets(k, p, key, v);
    } else {
      JunkSets(k, p, key, v);
    }
  }

  lemma HeaderSets(k: Key, p: ParsedInterface, key: string, v: string)
    requires ToLower(key) == Lower(k)
    requires k.H1? || k.H2? || k.H3? || k.H4? || k.I1? || k.I2? || k.I3? || k.I4? || k.I5?
    ensures AssignInterfaceField(p, key, v) == Set(p, k, v)
  {
    hide ToLower, ParseInt;
  }

  /** One more optional key line sets its field. */
  lemma ReadKey(lines: seq<string>, p: ParsedInterface, shown: bool, k: Key, value: string)
    requires Reads(lines, InInterface(p)) && OneLine(value)
    ensures Reads(lines + Opt(shown, Name(k), value), InInterface(if shown then Set(p, k, TrimSpace(value)) else p))
  {
    KeyNames(k);
    KeySets(k, p, Name(k), TrimSpace(value));
    ReadInterfaceKey(lines, InInterface(p), shown, Name(k), value);
  }

  predicate NumberKey(k: Key) {
    k.ListenPort? || k.MTU? || k.Jc? || k.Jmin? || k.Jmax? || k.S1? || k.S2? || k.S3? || k.S4?
  }

  function SetNumber(p: ParsedInterface, k: Key, n: int): ParsedInterface
    requires NumberKey(k)
  {
    match k
    case ListenPort => p.(listenPort := n)
    case MTU => p.(mtu := n)
    case Jc => p.(jc := n)
    case Jmin => p.(jmin := n)
    case Jmax => p.(jmax := n)
    case S1 => p.(s1 := n)
    case S2 => p.(s2 := n)
    case S3 => p.(s3 := n)
    case S4 => p.(s4 := n)
  }

  lemma ReadNumber(lines: seq<string>, p: ParsedInterface, shown: bool, k: Key, n: Int64)
    requires Reads(lines, InInterface(p)) && NumberKey(k)
    ensures Reads(lines + Opt(shown, Name(k), Itoa(n)), InInterface(if shown then SetNumber(p, k, n) else p))
  {
    hide Reads, Opt, TrimSpace, ParseInt, Itoa, Name;
    ItoaReads(n);
    ReadKey(lines, p, shown, k, Itoa(n));
  }

  lemma ReadStart(s: Settings, port: Int64, host: Host)
    requires SingleLines(s, host)
    ensures Reads(InterfaceLines(s, port, host), InInterface(AfterStart(s, port)))
  {
    hide RunLines, AssignInterfaceField;
    ReadHeader();
    ServerAddrReads(s);
    var l0, p0 := ["[Interface]"], NewInterface;
    ReadKey(l0, p0, true, PrivateKey, s.secretKey);
    var l1, p1 := l0 + Opt(true, Name(PrivateKey), s.secretKey), Set(p0, PrivateKey, TrimSpace(s.secretKey));
    ReadKey(l1, p1, true, Address, ServerAddr(s));
    var l2, p2 := l1 + Opt(true, Name(Address), ServerAddr(s)), Set(p1, Address, ServerAddr(s));
    ReadNumber(l2, p2, true, ListenPort, port);
    var l3, p3 := l2 + Opt(true, Name(ListenPort), Itoa(port)), SetNumber(p2, ListenPort, port);
    ReadNumber(l3, p3, s.mtu > 0, MTU, s.mtu);
  }

  lemma ReadJunk(lines: seq<string>, p: ParsedInterface, s: Settings)
    requires Reads(lines, InInterface(p))
    ensures Reads(JunkLines(lines, s), InInterface(AfterJunk(p, s)))
  {
    hide Reads, Opt, Itoa;
    ReadNumber(lines, p, true, Jc, s.jc);
    var l1, p1 := lines + Opt(true, Name(Jc), Itoa(s.jc)), SetNumber(p, Jc, s.jc);
    ReadNumber(l1, p1, true, Jmin, s.jmin);
    var l2, p2 := l1 + Opt(true, Name(Jmin), Itoa(s.jmin)), SetNumber(p1, Jmin, s.jmin);
    ReadNumber(l2, p2, true, Jmax, s.jmax);
    var l3, p3 := l2 + Opt(true, Name(Jmax), Itoa(s.jmax)), SetNumber(p2, Jmax, s.jmax);
    ReadNumber(l3, p3, true, S1, s.s1);
    var l4, p4 := l3 + Opt(true, Name(S1), Itoa(s.s1)), SetNumber(p3, S1, s.s1);
    ReadNumber(l4, p4, true, S2, s.s2);
    var l5, p5 := l4 + Opt(true, Name(S2), Itoa(s.s2)), SetNumber(p4, S2, s.s2);
    ReadNumber(l5, p5, true, S3, s.s3);
    var l6, p6 := l5 + Opt(true, Name(S3), Itoa(s.s3)), SetNumber(p5, S3, s.s3);
    ReadNumber(l6, p6, true, S4, s.s4);
  }

  /** A printable field value: one line, already trimmed. */
  ghost predicate Neat(s: string) {
    OneLine(s) && TrimSpace(s) == s
  }

  function TextField(p: ParsedInterface, k: Key): string {
    match k
    case H1 => p.h1 case H2 => p.h2 case H3 => p.h3 case H4 => p.h4
    case I1 => p.i1 case I2 => p.i2 case I3 => p.i3 case I4 => p.i4 case I5 => p.i5
    case PostUp => p.postUp case PostDown => p.postDown
    case _ => "-"
  }

  lemma EmptyFieldStays(p: ParsedInterface, k: Key)
    requires TextField(p, k) == ""
    ensures Set(p, k, "") == p
  {
  }

  /** A key printed only when its value is not empty; its field was empty before. */
  lemma ReadNeat(lines: seq<string>, p: ParsedInterface, k: Key, v: string)
    requires Reads(lines, InInterface(p)) && Neat(v)
    requires TextField(p, k) == ""
    ensures Reads(lines + Opt(v != "", Name(k), v), InInterface(Set(p, k, v)))
  {
    hide Reads, Opt, Set, TextField, TrimSpace;
    EmptyFieldStays(p, k);
    ReadKey(lines, p, v != "", k, v);
  }

  lemma ReadHeaderBlock(lines: seq<string>, p: ParsedInterface, a: string, b: string, c: string, d: string)
    requires Reads(lines, InInterface(p)) && Neat(a) && Neat(b) && Neat(c) && Neat(d)
    requires p.h1 == p.h2 == p.h3 == p.h4 == ""
    ensures Reads(lines + Opt(a != "", "H1", a) + Opt(b != "", "H2", b) + Opt(c != "", "H3", c) + Opt(d != "", "H4", d),
                  InInterface(p.(h1 := a, h2 := b, h3 := c, h4 := d)))
  {
    hide Reads, Neat, Opt;
    ReadNeat(lines, p, H1, a);
    var l1, p1 := lines + Opt(a != "", Name(H1), a), p.(h1 := a);
    ReadNeat(l1, p1, H2, b);
    var l2, p2 := l1 + Opt(b != "", Name(H2), b), p1.(h2 := b);
    ReadNeat(l2, p2, H3, c);
    var l3, p3 := l2 + Opt(c != "", Name(H3), c), p2.(h3 := c);
    ReadNeat(l3, p3, H4, d);
  }

  lemma ReadChainBlock(lines: seq<string>, p: ParsedInterface, a: string, b: string, c: string, d: string, e: string)
    requires Reads(lines, InInterface(p)) && Neat(a) && Neat(b) && Neat(c) && Neat(d) && Neat(e)
    requires p.i1 == p.i2 == p.i3 == p.i4 == p.i5 == ""
    ensures Reads(lines + Opt(a != "", "I1", a) + Opt(b != "", "I2", b) + Opt(c != "", "I3", c)
                    + Opt(d != "", "I4", d) + Opt(e != "", "I5", e),
                  InInterface(p.(i1 := a, i2 := b, i3 := c, i4 := d, i5 := e)))
  {
    hide Reads, Neat, Opt;
    ReadNeat(lines, p, I1, a);
    var l1, p1 := lines + Opt(a != "", Name(I1), a), p.(i1 := a);
    ReadNeat(l1, p1, I2, b);
    var l2, p2 := l1 + Opt(b != "", Name(I2), b), p1.(i2 := b);
    ReadNeat(l2, p2, I3, c);
    var l3, p3 := l2 + Opt(c != "", Name(I3), c), p2.(i3 := c);
    ReadNeat(l3, p3, I4, d);
    var l4, p4 := l3 + Opt(d != "", Name(I4), d), p3.(i4 := d);
    ReadNeat(l4, p4, I5, e);
  }

  lemma TrimmedIsNeat(s: string)
    requires OneLine(s)
    ensures Neat(TrimSpace(s))
  {
    TrimOneLine(s);
    TrimIsTight(s);
  }

  lemma ReadHeaders(lines: seq<string>, p: ParsedInterface, s: Settings, host: Host)
    requires Reads(lines, InInterface(p)) && SingleLines(s, host)
    requires p.h1 == p.h2 == p.h3 == p.h4 == "" && p.i1 == p.i2 == p.i3 == p.i4 == p.i5 == ""
    ensures Reads(HeaderLines(lines, s), InInterface(AfterHeaders(p, s)))
  {
    hide Reads, Neat, Opt;
    TrimmedIsNeat(s.h1); TrimmedIsNeat(s.h2); TrimmedIsNeat(s.h3); TrimmedIsNeat(s.h4);
    TrimmedIsNeat(s.i1); TrimmedIsNeat(s.i2); TrimmedIsNeat(s.i3); TrimmedIsNeat(s.i4); TrimmedIsNeat(s.i5);
    var a, b, c, d := TrimSpace(s.h1), TrimSpace(s.h2), TrimSpace(s.h3), TrimSpace(s.h4);
    ReadHeaderBlock(lines, p, a, b, c, d);
    ReadChainBlock(lines + Opt(a != "", "H1", a) + Opt(b != "", "H2", b) + Opt(c != "", "H3", c)
                     + Opt(d != "", "H4", d),
                   p.(h1 := a, h2 := b, h3 := c, h4 := d),
                   TrimSpace(s.i1), TrimSpace(s.i2), TrimSpace(s.i3), TrimSpace(s.i4), TrimSpace(s.i5));
  }

  lemma CommandIsOneLine(a: string, b: string, c: string)
    requires OneLine(a) && OneLine(b) && OneLine(c)
    ensures OneLine(a + b + c)
    ensures a != "" ==> (a + b + c)[0] == a[0]
    ensures c != "" ==> (a + b + c)[|a + b + c| - 1] == c[|c| - 1]
  {
  }

  lemma VisibleEnds()
    ensures !IsSpace('i') && !IsSpace('1') && !IsSpace('T') && !IsSpace('s')
  {
  }

  lemma PostUpWords()
    ensures OneLine("iptables -t nat -A POSTROUTING -s ") && OneLine(" -o ") && OneLine(" -j MASQUERADE")
    ensures OneLine("iptables -A FORWARD -i ") && OneLine("iptables -A FORWARD -o ") && OneLine(" -j ACCEPT")
  {
  }

  lemma PostDownWords()
    ensures OneLine("iptables -t nat -D POSTROUTING -s ") && OneLine(" -o ") && OneLine(" -j MASQUERADE")
    ensures OneLine("iptables -D FORWARD -i ") && OneLine("iptables -D FORWARD -o ") && OneLine(" -j ACCEPT")
  {
  }

  lemma ForwardingIsNeat()
    ensures Neat("sysctl -w net.ipv4.ip_forward=1")
  {
    hide IsSpace, TrimSpace;
    VisibleEnds();
    TightTrims("sysctl -w net.ipv4.ip_forward=1");
  }

  lemma NeatIsOneLine(s: string)
    requires Neat(s)
    ensures OneLine(s)
  {
  }

  lemma DefaultPostUp(prefix: string, exit: string, name: string)
    requires OneLine(prefix) && OneLine(exit) && OneLine(name)
    ensures Neat(Join([
      "iptables -t nat -A POSTROUTING -s " + prefix + " -o " + exit + " -j MASQUERADE",
      "iptables -A FORWARD -i " + name + " -j ACCEPT",
      "iptables -A FORWARD -o " + name + " -j ACCEPT",
      "sysctl -w net.ipv4.ip_forward=1"], "; "))
  {
    hide Neat, Join, IsSpace, OneLine;
    VisibleEnds();
    PostUpWords();
    ForwardingIsNeat();
    assert OneLine("sysctl -w net.ipv4.ip_forward=1") by { NeatIsOneLine("sysctl -w net.ipv4.ip_forward=1"); }
    var from := "iptables -t nat -A POSTROUTING -s " + prefix + " -o ";
    CommandIsOneLine("iptables -t nat -A POSTROUTING -s ", prefix, " -o ");
    CommandIsOneLine(from, exit, " -j MASQUERADE");
    CommandIsOneLine("iptables -A FORWARD -i ", name, " -j ACCEPT");
    CommandIsOneLine("iptables -A FORWARD -o ", name, " -j ACCEPT");
    var first, second := from + exit + " -j MASQUERADE", "iptables -A FORWARD -i " + name + " -j ACCEPT";
    var third, last := "iptables -A FORWARD -o " + name + " -j ACCEPT", "sysctl -w net.ipv4.ip_forward=1";
    assert first[0] == 'i' && last[|last| - 1] == '1';
    JoinedIsNeat([first, second, third, last]);
  }

  lemma PostUpTight(s: Settings, host: Host)
    requires SingleLines(s, host)
    ensures Neat(BuildPostUp(s, host))
  {
    hide Join, Neat, TrimSpace;
    TrimmedIsNeat(s.postUp);
    TrimOneLine(s.externalInterface);
    if TrimSpace(s.postUp) == "" {
      if host.ipv4Prefix == "" {
        ForwardingIsNeat();
      } else {
        DefaultPostUp(host.ipv4Prefix, ExitInterface(s, host), host.interfaceName);
      }
    }
  }

  lemma DefaultPostDown(prefix: string, exit: string, name: string)
    requires OneLine(prefix) && OneLine(exit) && OneLine(name)
    ensures Neat(Join([
      "iptables -t nat -D POSTROUTING -s " + prefix + " -o " + exit + " -j MASQUERADE",
      "iptables -D FORWARD -i " + name + " -j ACCEPT",
      "iptables -D FORWARD -o " + name + " -j ACCEPT"], "; "))
  {
    hide Neat, Join, IsSpace, OneLine;
    VisibleEnds();
    PostDownWords();
    var from := "iptables -t nat -D POSTROUTING -s " + prefix + " -o ";
    CommandIsOneLine("iptables -t nat -D POSTROUTING -s ", prefix, " -o ");
    CommandIsOneLine(from, exit, " -j MASQUERADE");
    CommandIsOneLine("iptables -D FORWARD -i ", name, " -j ACCEPT");
    CommandIsOneLine("iptables -D FORWARD -o ", name, " -j ACCEPT");
    var first, second := from + exit + " -j MASQUERADE", "iptables -D FORWARD -i " + name + " -j ACCEPT";
    var last := "iptables -D FORWARD -o " + name + " -j ACCEPT";
    assert first[0] == 'i' && last[|last| - 1] == 'T';
    JoinedIsNeat([first, second, last]);
  }

  lemma PostDownTight(s: Settings, host: Host)
    requires SingleLines(s, host)
    ensures Neat(BuildPostDown(s, host))
  {
    hide Join, IsSpace, TrimSpace;
    TrimmedIsNeat(s.postDown);
    TrimmedIsNeat(s.externalInterface);
    if TrimSpace(s.postDown) == "" && host.ipv4Prefix != "" {
      DefaultPostDown(host.ipv4Prefix, ExitInterface(s, host), host.interfaceName);
    }
  }

  /** Commands joined by "; " form one visible line when the outer ones are visible at the outer ends. */
  lemma JoinedIsNeat(parts: seq<string>)
    requires parts != [] && forall i :: 0 <= i < |parts| ==> OneLine(parts[i])
    requires parts[0] != "" && !IsSpace(parts[0][0])
    requires parts[|parts| - 1] != "" && !IsSpace(parts[|parts| - 1][|parts[|parts| - 1]| - 1])
    ensures Neat(Join(parts, "; "))
  {
    hide IsSpace, Join, TrimSpace;
    JoinEnds(parts, "; ");
    TightTrims(Join(parts, "; "));
  }

  lemma {:induction false} JoinEnds(parts: seq<string>, sep: string)
    requires parts != [] && parts[|parts| - 1] != "" && OneLine(sep)
    requires forall i :: 0 <= i < |parts| ==> OneLine(parts[i])
    ensures var text := Join(parts, sep);
      && OneLine(text) && text != ""
      && text[|text| - 1] == parts[|parts| - 1][|parts[|parts| - 1]| - 1]
      && (parts[0] != "" ==> text[0] == parts[0][0])
  {
    if |parts| > 1 {
      JoinEnds(parts[1..], sep);
      assert Join(parts, sep) == parts[0] + sep + Join(parts[1..], sep);
    }
  }

  lemma ReadHooks(lines: seq<string>, p: ParsedInterface, s: Settings, host: Host)
    requires Reads(lines, InInterface(p)) && SingleLines(s, host) && p.postUp == p.postDown == ""
    ensures Reads(HookLines(lines, s, host), InInterface(AfterHooks(p, s, host)))
  {
    hide Reads, Neat, Opt, BuildPostUp, BuildPostDown;
    PostUpTight(s, host);
    PostDownTight(s, host);
    var up, down := BuildPostUp(s, host), BuildPostDown(s, host);
    ReadHookPair(lines, p, up, down);
  }

  lemma ReadHookPair(lines: seq<string>, p: ParsedInterface, up: string, down: string)
    requires Reads(lines, InInterface(p)) && p.postUp == p.postDown == ""
    requires Neat(up) && Neat(down)
    ensures Reads(lines + Opt(up != "", "PostUp", up) + Opt(down != "", "PostDown", down),
                  InInterface(p.(postUp := up, postDown := down)))
  {
    hide Reads, Neat, Opt;
    ReadNeat(lines, p, PostUp, up);
    var l1, p1 := lines + Opt(up != "", Name(PostUp), up), p.(postUp := up);
    ReadNeat(l1, p1, PostDown, down);
  }

  function RecoveredHead(s: Settings, port: Int64, host: Host): ParsedInterface {
    AfterHooks(AfterHeaders(AfterJunk(AfterStart(s, port), s), s), s, host)
  }

  lemma ReadHead(s: Settings, port: Int64, host: Host)
    requires SingleLines(s, host)
    ensures Reads(HeadLines(s, port, host), InInterface(RecoveredHead(s, port, host)))
  {
    hide Reads, InterfaceLines, JunkLines, HeaderLines, HookLines, BuildPostUp, BuildPostDown;
    ReadStart(s, port, host);
    var l0, p0 := InterfaceLines(s, port, host), AfterStart(s, port);
    ReadJunk(l0, p0, s);
    ReadHeaders(JunkLines(l0, s), AfterJunk(p0, s), s, host);
    ReadHooks(HeaderLines(JunkLines(l0, s), s), AfterHeaders(AfterJunk(p0, s), s), s, host);
  }
}
