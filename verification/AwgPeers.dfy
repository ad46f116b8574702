/**
 The peer sections of a printed AmneziaWG configuration, the line scanner, and the whole
 round trip: what ParseConfigFile recovers from the text buildConfig emits.
 */
module AwgPeers {
  import opened Prelude
  import opened Text
  import opened AwgConfig
  import opened AwgRoundTrip

  // ---- what a peer comes back as --------------------------------------------------

  /** Allowed addresses as collectPeers produces them: canonical prefixes, never blank, without commas. */
  ghost predicate PrefixText(ip: string) {
    OneLine(ip) && Tight(ip) && ip != "" && ',' !in ip && ip != "(none)"
  }

  ghost predicate Printable(p: Peer) {
    && OneLine(p.email) && OneLine(p.publicKey) && OneLine(p.preshared)
    && forall i :: 0 <= i < |p.allowedIPs| ==> PrefixText(p.allowedIPs[i])
  }

  function RecoveredPeer(p: Peer): ParsedPeer {
    ParsedPeer(TrimSpace(p.email), TrimSpace(p.publicKey), TrimSpace(p.preshared),
               if p.allowedIPs == [] then ["0.0.0.0/0", "::/0"] else p.allowedIPs,
               if p.keepAlive > 0 then p.keepAlive else 0)
  }

  /** Every peer in order, except those whose public key is blank. */
  function RecoveredPeers(peers: seq<Peer>): seq<ParsedPeer> {
    if peers == [] then []
    else
      var p := peers[|peers| - 1];
      RecoveredPeers(peers[..|peers| - 1]) + (if TrimSpace(p.publicKey) != "" then [RecoveredPeer(p)] else [])
  }

  // ---- the allowed addresses ---------------------------------------------------------

  lemma {:induction false} SplitSpaced(ips: seq<string>)
    requires ips != [] && forall i :: 0 <= i < |ips| ==> ',' !in ips[i]
    ensures var parts := Split(Join(ips, ", "), ',');
      && |parts| == |ips| && parts[0] == ips[0]
      && forall i :: 0 < i < |ips| ==> parts[i] == " " + ips[i]
  {
    hide Split, IndexOf;
    if |ips| == 1 {
      SplitHead(ips[0], ',', "");
    } else {
      var rest := ips[1..];
      var text := Join(rest, ", ");
      SplitSpaced(rest);
      assert Join(ips, ", ") == ips[0] + [','] + (" " + text);
      SplitHead(ips[0], ',', " " + text);
      SplitAfterSpace(text);
    }
  }

  /** A leading space stays with the first part. */
  lemma SplitAfterSpace(text: string)
    ensures Split(" " + text, ',') == [" " + Split(text, ',')[0]] + Split(text, ',')[1..]
  {
    var i := IndexOf(text, ',');
    var s := " " + text;
    assert s[..i + 1] == " " + text[..i];
    IndexAt(s, ',', i + 1);
    if i < |text| {
      assert s[i + 2..] == text[i + 1..];
    }
  }

  lemma {:induction false} TrimmedNonBlankIs(parts: seq<string>, ips: seq<string>)
    requires |parts| == |ips|
    requires forall i :: 0 <= i < |ips| ==> TrimSpace(parts[i]) == ips[i] && ips[i] != ""
    ensures TrimmedNonBlank(parts) == ips
  {
    hide TrimSpace;
    if parts != [] {
      var n := |parts| - 1;
      TrimmedNonBlankIs(parts[..n], ips[..n]);
      assert ips == ips[..n] + [ips[n]];
    }
  }

  lemma PrefixesJoinNeat(ips: seq<string>)
    requires ips != [] && forall i :: 0 <= i < |ips| ==> PrefixText(ips[i])
    ensures Neat(Join(ips, ", "))
  {
    hide IsSpace, Join, TrimSpace;
    JoinEnds(ips, ", ");
    TightTrims(Join(ips, ", "));
  }

  lemma SplitJoinedPrefixes(ips: seq<string>)
    requires ips != [] && forall i :: 0 <= i < |ips| ==> PrefixText(ips[i])
    ensures TrimmedNonBlank(Split(Join(ips, ", "), ',')) == ips
  {
    hide IsSpace, Join, Split, TrimSpace, TrimmedNonBlank, OneLine;
    SplitSpaced(ips);
    var parts := Split(Join(ips, ", "), ',');
    forall i | 0 <= i < |ips| ensures TrimSpace(parts[i]) == ips[i] {
      TightTrims(ips[i]);
      TrimSpaceFirst(ips[i]);
    }
    TrimmedNonBlankIs(parts, ips);
  }

  lemma SplitAllowedJoin(ips: seq<string>)
    requires ips != [] && forall i :: 0 <= i < |ips| ==> PrefixText(ips[i])
    ensures Neat(Join(ips, ", ")) && SplitAllowedIPs(Join(ips, ", ")) == ips
  {
    hide Join, Split, TrimmedNonBlank, Neat;
    JoinIsNotNone(ips);
    PrefixesJoinNeat(ips);
    JoinIsNotEmpty(ips);
    SplitJoinedPrefixes(ips);
  }

  lemma JoinIsNotEmpty(ips: seq<string>)
    requires ips != [] && ips[0] != ""
    ensures Join(ips, ", ") != ""
  {
  }

  lemma TrimSpaceFirst(s: string)
    ensures TrimSpace(" " + s) == TrimSpace(s)
  {
    TrimAround(" ", s, "");
    assert " " + s == " " + s + "";
  }

  lemma JoinIsNotNone(ips: seq<string>)
    requires ips != [] && ips[0] != "(none)"
    ensures Join(ips, ", ") != "(none)"
  {
    if |ips| > 1 {
      CommaInJoin(ips);
      NoneHasNoComma();
    }
  }

  lemma CommaInJoin(ips: seq<string>)
    requires |ips| > 1
    ensures ',' in Join(ips, ", ")
  {
    var text := Join(ips, ", ");
    assert text == ips[0] + ", " + Join(ips[1..], ", ");
    assert text[|ips[0]|] == ',';
  }

  lemma NoneHasNoComma()
    ensures ',' !in "(none)"
  {
  }

  lemma AllowedReads(p: Peer)
    requires Printable(p)
    ensures OneLine(AllowedText(p))
    ensures SplitAllowedIPs(TrimSpace(AllowedText(p))) == RecoveredPeer(p).allowedIPs
  {
    var ips := if p.allowedIPs == [] then ["0.0.0.0/0", "::/0"] else p.allowedIPs;
    if p.allowedIPs == [] {
      DefaultPrefixes();
    }
    SplitAllowedJoin(ips);
  }

  lemma DefaultPrefixes()
    ensures PrefixText("0.0.0.0/0") && PrefixText("::/0")
    ensures Join(["0.0.0.0/0", "::/0"], ", ") == "0.0.0.0/0, ::/0"
  {
    var two := ["0.0.0.0/0", "::/0"];
    assert two[1..] == ["::/0"];
  }

  // ---- one peer section ----------------------------------------------------------------

  /** The parser may be in the interface section, or inside a peer. */
  predicate Open(st: State) {
    (st.section == "interface" && st.peer.None? && st.comment == "") || (st.section == "peer" && st.peer.Some?)
  }

  function InPeer(peer: ParsedPeer, comment: string, p: ParsedInterface): State {
    State("peer", Some(peer), comment, p)
  }

  lemma BlankStep(st: State)
    ensures StepLine(st, "") == st
  {
  }

  lemma PeerHeaderStep(st: State)
    requires Open(st)
    ensures StepLine(st, "[Peer]") == InPeer(NewPeer, "", Flush(st))
  {
    hide IsSpace, TrimSpace;
    VisibleBrackets();
    var line := "[Peer]";
    TightTrims(line);
    PeerHeaderName();
    assert HasPrefix(line, "[") && HasSuffix(line, "]");
  }

  lemma PeerHeaderName()
    ensures ToLower(TrimBrackets("[Peer]")) == "peer"
  {
    assert TrimBrackets("Peer]") == "Peer";
    assert TrimBrackets("[Peer]") == "Peer";
    assert ToLower("Peer") == "peer";
  }

  lemma VisibleHash()
    ensures !IsSpace('#') && Blank(" ") && Blank("\r") && Blank("")
  {
  }

  lemma CommentStep(p: ParsedInterface, email: string)
    ensures StepLine(InPeer(NewPeer, "", p), "# " + email) == InPeer(NewPeer, TrimSpace(email), p)
  {
    hide IsSpace, TrimSpace;
    VisibleHash();
    var tail := " " + email;
    assert "# " + email == "#" + tail;
    TrimKeepsHead("#", tail);
    var line := "#" + TrimRight(tail);
    assert line[1..] == TrimRight(tail);
    TrimOfTrimRight(tail);
    TrimAround(" ", email, "");
    assert tail == tail + "";
  }

  lemma ReadPeerStart(lines: seq<string>, st: State, email: string)
    requires Reads(lines, st) && Open(st) && OneLine(email)
    ensures Reads(lines + ["", "[Peer]", "# " + email], InPeer(NewPeer, TrimSpace(email), Flush(st)))
  {
    hide RunLines, StepLine, Flush, TrimSpace;
    BlankStep(st);
    ReadOne(lines, st, "");
    PeerHeaderStep(st);
    ReadOne(lines + [""], st, "[Peer]");
    CommentStep(Flush(st), email);
    ReadOne(lines + [""] + ["[Peer]"], InPeer(NewPeer, "", Flush(st)), "# " + email);
    assert lines + [""] + ["[Peer]"] + ["# " + email] == lines + ["", "[Peer]", "# " + email];
  }

  lemma LowerPublicKey()
    ensures PlainKey("PublicKey") && ToLower("PublicKey") == "publickey"
  {
  }

  lemma LowerPresharedKey()
    ensures PlainKey("PresharedKey") && ToLower("PresharedKey") == "presharedkey"
  {
  }

  lemma LowerAllowedIPs()
    ensures PlainKey("AllowedIPs") && ToLower("AllowedIPs") == "allowedips"
  {
  }

  lemma LowerKeepAlive()
    ensures PlainKey("PersistentKeepalive") && ToLower("PersistentKeepalive") == "persistentkeepalive"
  {
    LowerAcross("Persistent", "Keepalive");
    assert ToLower("Persistent") == "persistent" && ToLower("Keepalive") == "keepalive";
  }

  lemma LowerAcross(a: string, b: string)
    ensures ToLower(a + b) == ToLower(a) + ToLower(b)
  {
  }

  lemma PublicKeySets(p: ParsedPeer, v: string)
    ensures PlainKey("PublicKey") && AssignPeerField(p, "PublicKey", v) == p.(publicKey := v)
  {
    hide ToLower, PlainKey;
    LowerPublicKey();
  }

  lemma PresharedKeySets(p: ParsedPeer, v: string)
    ensures PlainKey("PresharedKey") && AssignPeerField(p, "PresharedKey", v) == p.(presharedKey := v)
  {
    hide ToLower, PlainKey;
    LowerPresharedKey();
  }

  lemma AllowedIPsSets(p: ParsedPeer, v: string)
    ensures PlainKey("AllowedIPs") && AssignPeerField(p, "AllowedIPs", v) == p.(allowedIPs := SplitAllowedIPs(v))
  {
    hide ToLower, PlainKey;
    LowerAllowedIPs();
  }

  lemma KeepAliveSets(p: ParsedPeer, v: string)
    ensures PlainKey("PersistentKeepalive")
    ensures AssignPeerField(p, "PersistentKeepalive", v) == p.(keepAlive := ParseInt(v).value)
  {
    hide ToLower, PlainKey, ParseInt;
    LowerKeepAlive();
  }

  lemma ReadPeerFields(lines: seq<string>, name: string, iface: ParsedInterface, p: Peer)
    requires Reads(lines, InPeer(NewPeer, name, iface)) && Printable(p)
    ensures Reads(lines + Opt(true, "PublicKey", p.publicKey)
                    + Opt(p.preshared != "", "PresharedKey", p.preshared)
                    + Opt(true, "AllowedIPs", AllowedText(p))
                    + Opt(p.keepAlive > 0, "PersistentKeepalive", Itoa(p.keepAlive)),
                  InPeer(RecoveredPeer(p).(name := ""), name, iface))
  {
    hide RunLines, AssignPeerField, PlainKey, SplitAllowedIPs, AllowedText, ParseInt, Itoa, OneLine;
    var st := InPeer(NewPeer, name, iface);
    PublicKeySets(NewPeer, TrimSpace(p.publicKey));
    ReadPeerKey(lines, st, true, "PublicKey", p.publicKey);
    var l1, p1 := lines + Opt(true, "PublicKey", p.publicKey), NewPeer.(publicKey := TrimSpace(p.publicKey));
    PresharedKeySets(p1, TrimSpace(p.preshared));
    ReadPeerKey(l1, InPeer(p1, name, iface), p.preshared != "", "PresharedKey", p.preshared);
    var l2, p2 := l1 + Opt(p.preshared != "", "PresharedKey", p.preshared), p1.(presharedKey := TrimSpace(p.preshared));
    AllowedReads(p);
    AllowedIPsSets(p2, TrimSpace(AllowedText(p)));
    ReadPeerKey(l2, InPeer(p2, name, iface), true, "AllowedIPs", AllowedText(p));
    var l3, p3 := l2 + Opt(true, "AllowedIPs", AllowedText(p)), p2.(allowedIPs := RecoveredPeer(p).allowedIPs);
    ItoaReads(p.keepAlive);
    KeepAliveSets(p3, TrimSpace(Itoa(p.keepAlive)));
    ReadPeerKey(l3, InPeer(p3, name, iface), p.keepAlive > 0, "PersistentKeepalive", Itoa(p.keepAlive));
  }

  lemma ReadPeer(lines: seq<string>, st: State, p: Peer)
    requires Reads(lines, st) && Open(st) && Printable(p)
    ensures Reads(PeerLines(lines, p), InPeer(RecoveredPeer(p).(name := ""), TrimSpace(p.email), Flush(st)))
  {
    hide RunLines, Flush, RecoveredPeer, AllowedText;
    ReadPeerStart(lines, st, p.email);
    ReadPeerFields(lines + ["", "[Peer]", "# " + p.email], TrimSpace(p.email), Flush(st), p);
  }

  lemma FlushPeer(p: Peer, iface: ParsedInterface)
    ensures Flush(InPeer(RecoveredPeer(p).(name := ""), TrimSpace(p.email), iface))
      == iface.(peers := iface.peers + (if TrimSpace(p.publicKey) != "" then [RecoveredPeer(p)] else []))
  {
  }

  lemma {:induction false} ReadPeers(lines: seq<string>, iface: ParsedInterface, peers: seq<Peer>) returns (st: State)
    requires Reads(lines, InInterface(iface))
    requires forall i :: 0 <= i < |peers| ==> Printable(peers[i])
    ensures Reads(AllPeerLines(lines, peers), st) && Open(st)
    ensures Flush(st) == iface.(peers := iface.peers + RecoveredPeers(peers))
  {
    hide Reads, PeerLines, RecoveredPeer, Printable, TrimSpace;
    if peers == [] {
      st := InInterface(iface);
    } else {
      var n := |peers| - 1;
      var before := ReadPeers(lines, iface, peers[..n]);
      ReadPeer(AllPeerLines(lines, peers[..n]), before, peers[n]);
      FlushPeer(peers[n], Flush(before));
      st := InPeer(RecoveredPeer(peers[n]).(name := ""), TrimSpace(peers[n].email), Flush(before));
    }
  }

  // ---- the scanner --------------------------------------------------------------------------

  lemma DropCRTrims(line: string)
    ensures TrimSpace(DropCR(line)) == TrimSpace(line)
  {
    hide IsSpace, TrimSpace;
    VisibleHash();
    if HasSuffix(line, "\r") {
      var s := line[..|line| - 1];
      assert line == "" + s + "\r";
      TrimAround("", s, "\r");
    }
  }

  lemma SameTrimStep(st: State, a: string, b: string)
    requires TrimSpace(a) == TrimSpace(b)
    ensures StepLine(st, a) == StepLine(st, b)
  {
  }

  lemma {:induction false} RunDroppedCR(lines: seq<string>, dropped: seq<string>)
    requires |dropped| == |lines| && forall i :: 0 <= i < |lines| ==> dropped[i] == DropCR(lines[i])
    ensures RunLines(dropped) == RunLines(lines)
  {
    hide DropCR, TrimSpace, StepLine;
    if lines != [] {
      var n := |lines| - 1;
      RunDroppedCR(lines[..n], dropped[..n]);
      DropCRTrims(lines[n]);
      SameTrimStep(RunLines(lines[..n]), lines[n], dropped[n]);
    }
  }

  lemma {:induction false} JoinTrailing(lines: seq<string>)
    requires lines != []
    ensures Join(lines + [""], "\n") == Join(lines, "\n") + "\n"
  {
    var all := lines + [""];
    if |lines| == 1 {
      assert all[1..] == [""];
    } else {
      JoinTrailing(lines[1..]);
      assert all[1..] == lines[1..] + [""];
    }
  }

  lemma ScanPrinted(lines: seq<string>)
    requires lines != [] && forall i :: 0 <= i < |lines| ==> OneLine(lines[i])
    ensures RunLines(ScanLines(Join(lines, "\n") + "\n")) == RunLines(lines)
  {
    hide Split, Join, RunLines, DropCR;
    JoinTrailing(lines);
    var all := lines + [""];
    SplitJoin(all, '\n');
    assert all[..|all| - 1] == lines;
    RunDroppedCR(lines, ScanLines(Join(lines, "\n") + "\n"));
  }

  // ---- the round trip -------------------------------------------------------------------------

  /** What the printed settings come back as: trimmed text, an unset MTU as 0, every keyed peer in order. */
  function Recovered(s: Settings, port: Int64, host: Host, peers: seq<Peer>): ParsedInterface {
    ParsedInterface(
      TrimSpace(s.secretKey), port, ServerAddr(s), if s.mtu > 0 then s.mtu else 0, "",
      s.jc, s.jmin, s.jmax, s.s1, s.s2, s.s3, s.s4,
      TrimSpace(s.h1), TrimSpace(s.h2), TrimSpace(s.h3), TrimSpace(s.h4),
      TrimSpace(s.i1), TrimSpace(s.i2), TrimSpace(s.i3), TrimSpace(s.i4), TrimSpace(s.i5),
      BuildPostUp(s, host), BuildPostDown(s, host), RecoveredPeers(peers))
  }

  /** Parsing what buildConfig prints gives the settings back, for any number of peers. */
  lemma RoundTrip(s: Settings, port: Int64, host: Host, peers: seq<Peer>)
    requires SingleLines(s, host)
    requires forall i :: 0 <= i < |peers| ==> Printable(peers[i])
    ensures ParseText(ConfigText(s, port, host, peers)) == Recovered(s, port, host, peers)
  {
    hide RunLines, Flush, AllPeerLines, HeadLines, BuildPostUp, BuildPostDown, RecoveredPeers, ScanLines, Printable;
    ReadHead(s, port, host);
    var st := ReadPeers(HeadLines(s, port, host), RecoveredHead(s, port, host), peers);
    ScanPrinted(AllPeerLines(HeadLines(s, port, host), peers));
  }

  /** The interface section that comes back: what is printed for a blank address or no MTU, and no DNS. */
  lemma DefaultsComeBack(s: Settings, port: Int64, host: Host, peers: seq<Peer>)
    requires SingleLines(s, host)
    requires forall i :: 0 <= i < |peers| ==> Printable(peers[i])
    ensures var p := ParseText(ConfigText(s, port, host, peers));
      && p.address == (if TrimSpace(s.address) == "" then "10.66.66.1/24" else TrimSpace(s.address))
      && p.mtu == (if s.mtu > 0 then s.mtu else 0) && p.dns == "" && p.listenPort == port
      && p.privateKey == TrimSpace(s.secretKey)
  {
    hide ParseText, ConfigText, TrimSpace, Printable, SingleLines, BuildPostUp, BuildPostDown, RecoveredPeers;
    RoundTrip(s, port, host, peers);
  }

  /** Peers as collectPeers hands them over, with a visible key each, all come back, one for one. */
  lemma {:induction false} AllPeersComeBack(peers: seq<Peer>)
    requires forall i :: 0 <= i < |peers| ==> TrimSpace(peers[i].publicKey) != ""
    ensures |RecoveredPeers(peers)| == |peers|
    ensures forall i :: 0 <= i < |peers| ==> RecoveredPeers(peers)[i] == RecoveredPeer(peers[i])
  {
    hide RecoveredPeer, TrimSpace;
    if peers != [] {
      AllPeersComeBack(peers[..|peers| - 1]);
    }
  }

  /** Writing a file and reading it back through the two loops themselves. */
  method PrintThenParse(s: Settings, port: Int64, host: Host, peers: seq<Peer>) returns (back: Option<ParsedInterface>)
    requires SingleLines(s, host)
    requires forall i :: 0 <= i < |peers| ==> Printable(peers[i])
    ensures back == if TrimSpace(s.secretKey) == "" then None else Some(Recovered(s, port, host, peers))
  {
    var text := BuildConfig(s, port, host, peers);
    if text.None? {
      return None;
    }
    var parsed := ParseConfig(text.value);
    RoundTrip(s, port, host, peers);
    return Some(parsed);
  }
}
