/**
 The AmneziaWG interface file: the printer (buildConfig, internal/awg/manager.go) and the
 line-oriented parser (ParseConfigFile, internal/awg/config.go).
 */
module AwgConfig {
  import opened Prelude
  import opened Text

  // ---- what is printed ------------------------------------------------------------

  /** The inbound settings buildConfig reads. */
  datatype Settings = Settings(
    secretKey: string, address: string, mtu: Int64,
    jc: Int64, jmin: Int64, jmax: Int64, s1: Int64, s2: Int64, s3: Int64, s4: Int64,
    h1: string, h2: string, h3: string, h4: string,
    i1: string, i2: string, i3: string, i4: string, i5: string,
    externalInterface: string, postUp: string, postDown: string)

  /** A collected peer. */
  datatype Peer = Peer(email: string, publicKey: string, preshared: string, allowedIPs: seq<string>, keepAlive: Int64)

  /** What the printer learns from the host and from address parsing. */
  datatype Host = Host(defaultInterface: string, interfaceName: string, ipv4Prefix: string)

  function ServerAddr(s: Settings): string {
    if TrimSpace(s.address) == "" then "10.66.66.1/24" else TrimSpace(s.address)
  }

  function ExitInterface(s: Settings, host: Host): string {
    if TrimSpace(s.externalInterface) == "" then host.defaultInterface else TrimSpace(s.externalInterface)
  }

  function BuildPostUp(s: Settings, host: Host): string {
    if TrimSpace(s.postUp) != "" then TrimSpace(s.postUp)
    else if host.ipv4Prefix == "" then "sysctl -w net.ipv4.ip_forward=1"
    else Join([
      "iptables -t nat -A POSTROUTING -s " + host.ipv4Prefix + " -o " + ExitInterface(s, host) + " -j MASQUERADE",
      "iptables -A FORWARD -i " + host.interfaceName + " -j ACCEPT",
      "iptables -A FORWARD -o " + host.interfaceName + " -j ACCEPT",
      "sysctl -w net.ipv4.ip_forward=1"], "; ")
  }

  function BuildPostDown(s: Settings, host: Host): string {
    if TrimSpace(s.postDown) != "" then TrimSpace(s.postDown)
    else if host.ipv4Prefix == "" then ""
    else Join([
      "iptables -t nat -D POSTROUTING -s " + host.ipv4Prefix + " -o " + ExitInterface(s, host) + " -j MASQUERADE",
      "iptables -D FORWARD -i " + host.interfaceName + " -j ACCEPT",
      "iptables -D FORWARD -o " + host.interfaceName + " -j ACCEPT"], "; ")
  }

  function Opt(shown: bool, key: string, value: string): seq<string> {
    if shown then [key + " = " + value] else []
  }

  function InterfaceLines(s: Settings, port: Int64, host: Host): seq<string> {
    ["[Interface]"]
      + Opt(true, "PrivateKey", s.secretKey)
      + Opt(true, "Address", ServerAddr(s))
      + Opt(true, "ListenPort", Itoa(port))
      + Opt(s.mtu > 0, "MTU", Itoa(s.mtu))
  }

  function JunkLines(lines: seq<string>, s: Settings): seq<string> {
    lines
      + Opt(true, "Jc", Itoa(s.jc)) + Opt(true, "Jmin", Itoa(s.jmin)) + Opt(true, "Jmax", Itoa(s.jmax))
      + Opt(true, "S1", Itoa(s.s1)) + Opt(true, "S2", Itoa(s.s2)) + Opt(true, "S3", Itoa(s.s3))
      + Opt(true, "S4", Itoa(s.s4))
  }

  function HeaderLines(lines: seq<string>, s: Settings): seq<string> {
    lines
      + Opt(TrimSpace(s.h1) != "", "H1", TrimSpace(s.h1)) + Opt(TrimSpace(s.h2) != "", "H2", TrimSpace(s.h2))
      + Opt(TrimSpace(s.h3) != "", "H3", TrimSpace(s.h3)) + Opt(TrimSpace(s.h4) != "", "H4", TrimSpace(s.h4))
      + Opt(TrimSpace(s.i1) != "", "I1", TrimSpace(s.i1)) + Opt(TrimSpace(s.i2) != "", "I2", TrimSpace(s.i2))
      + Opt(TrimSpace(s.i3) != "", "I3", TrimSpace(s.i3)) + Opt(TrimSpace(s.i4) != "", "I4", TrimSpace(s.i4))
      + Opt(TrimSpace(s.i5) != "", "I5", TrimSpace(s.i5))
  }

  function HookLines(lines: seq<string>, s: Settings, host: Host): seq<string> {
    lines
      + Opt(BuildPostUp(s, host) != "", "PostUp", BuildPostUp(s, host))
      + Opt(BuildPostDown(s, host) != "", "PostDown", BuildPostDown(s, host))
  }

  function AllowedText(p: Peer): string {
    if |p.allowedIPs| == 0 then "0.0.0.0/0, ::/0" else Join(p.allowedIPs, ", ")
  }

  function PeerLines(lines: seq<string>, p: Peer): seq<string> {
    lines + ["", "[Peer]", "# " + p.email]
      + Opt(true, "PublicKey", p.publicKey)
      + Opt(p.preshared != "", "PresharedKey", p.preshared)
      + Opt(true, "AllowedIPs", AllowedText(p))
      + Opt(p.keepAlive > 0, "PersistentKeepalive", Itoa(p.keepAlive))
  }

  function AllPeerLines(lines: seq<string>, peers: seq<Peer>): seq<string> {
    if peers == [] then lines
    else PeerLines(AllPeerLines(lines, peers[..|peers| - 1]), peers[|peers| - 1])
  }

  function HeadLines(s: Settings, port: Int64, host: Host): seq<string> {
    HookLines(HeaderLines(JunkLines(InterfaceLines(s, port, host), s), s), s, host)
  }

  function ConfigText(s: Settings, port: Int64, host: Host, peers: seq<Peer>): string {
    Join(AllPeerLines(HeadLines(s, port, host), peers), "\n") + "\n"
  }

  method AppendObfuscationLines(lines: seq<string>, s: Settings) returns (out: seq<string>)
    ensures out == HeaderLines(JunkLines(lines, s), s)
  {
    out := lines;
    out := out + ["Jc" + " = " + Itoa(s.jc)];
    out := out + ["Jmin" + " = " + Itoa(s.jmin)];
    out := out + ["Jmax" + " = " + Itoa(s.jmax)];
    out := out + ["S1" + " = " + Itoa(s.s1)];
    out := out + ["S2" + " = " + Itoa(s.s2)];
    out := out + ["S3" + " = " + Itoa(s.s3)];
    out := out + ["S4" + " = " + Itoa(s.s4)];
    out := AppendTrimmed(out, "H1", s.h1);
    out := AppendTrimmed(out, "H2", s.h2);
    out := AppendTrimmed(out, "H3", s.h3);
    out := AppendTrimmed(out, "H4", s.h4);
    out := AppendTrimmed(out, "I1", s.i1);
    out := AppendTrimmed(out, "I2", s.i2);
    out := AppendTrimmed(out, "I3", s.i3);
    out := AppendTrimmed(out, "I4", s.i4);
    out := AppendTrimmed(out, "I5", s.i5);
  }

  method AppendTrimmed(lines: seq<string>, key: string, value: string) returns (out: seq<string>)
    ensures out == lines + Opt(TrimSpace(value) != "", key, TrimSpace(value))
  {
    out := lines;
    if TrimSpace(value) != "" {
      out := out + [key + " = " + TrimSpace(value)];
    }
  }

  method AppendPeer(lines: seq<string>, p: Peer) returns (out: seq<string>)
    ensures out == PeerLines(lines, p)
  {
    out := lines + ["", "[Peer]", "# " + p.email] + ["PublicKey" + " = " + p.publicKey];
    if p.preshared != "" {
      out := out + ["PresharedKey" + " = " + p.preshared];
    }
    if |p.allowedIPs| == 0 {
      out := out + ["AllowedIPs" + " = " + "0.0.0.0/0, ::/0"];
    } else {
      out := out + ["AllowedIPs" + " = " + Join(p.allowedIPs, ", ")];
    }
    if p.keepAlive > 0 {
      out := out + ["PersistentKeepalive" + " = " + Itoa(p.keepAlive)];
    }
  }

  method StartLines(s: Settings, port: Int64, host: Host) returns (lines: seq<string>)
    ensures lines == InterfaceLines(s, port, host)
  {
    lines := ["[Interface]"];
    lines := lines + ["PrivateKey" + " = " + s.secretKey];
    lines := lines + ["Address" + " = " + ServerAddr(s)];
    lines := lines + ["ListenPort" + " = " + Itoa(port)];
    if s.mtu > 0 {
      lines := lines + ["MTU" + " = " + Itoa(s.mtu)];
    }
  }

  method AppendHooks(lines: seq<string>, s: Settings, host: Host) returns (out: seq<string>)
    ensures out == HookLines(lines, s, host)
  {
    out := lines;
    var postUp := BuildPostUp(s, host);
    if postUp != "" {
      out := out + ["PostUp" + " = " + postUp];
    }
    var postDown := BuildPostDown(s, host);
    if postDown != "" {
      out := out + ["PostDown" + " = " + postDown];
    }
  }

  /** buildConfig: refuses a blank secret key, otherwise prints the interface and every peer in order. */
  method BuildConfig(s: Settings, port: Int64, host: Host, peers: seq<Peer>) returns (text: Option<string>)
    ensures text == if TrimSpace(s.secretKey) == "" then None else Some(ConfigText(s, port, host, peers))
  {
    hide InterfaceLines, JunkLines, HeaderLines, HookLines, PeerLines, Join, TrimSpace;
    if TrimSpace(s.secretKey) == "" {
      return None;
    }
    var lines := StartLines(s, port, host);
    lines := AppendObfuscationLines(lines, s);
    lines := AppendHooks(lines, s, host);
    for i := 0 to |peers|
      invariant lines == AllPeerLines(HeadLines(s, port, host), peers[..i])
    {
      assert peers[..i+1][..i] == peers[..i];
      lines := AppendPeer(lines, peers[i]);
    }
    assert peers[..|peers|] == peers;
    return Some(Join(lines, "\n") + "\n");
  }

  // ---- what is parsed -----------------------------------------------------------------

  datatype ParsedPeer = ParsedPeer(
    name: string, publicKey: string, presharedKey: string, allowedIPs: seq<string>, keepAlive: int)

  const NewPeer := ParsedPeer("", "", "", [], 0)

  datatype ParsedInterface = ParsedInterface(
    privateKey: string, listenPort: int, address: string, mtu: int, dns: string,
    jc: int, jmin: int, jmax: int, s1: int, s2: int, s3: int, s4: int,
    h1: string, h2: string, h3: string, h4: string,
    i1: string, i2: string, i3: string, i4: string, i5: string,
    postUp: string, postDown: string, peers: seq<ParsedPeer>)

  const NewInterface := ParsedInterface(
    "", 0, "", 0, "", 0, 0, 0, 0, 0, 0, 0, "", "", "", "", "", "", "", "", "", "", "", [])

  function AssignInterfaceField(p: ParsedInterface, key: string, value: string): ParsedInterface {
    var k := ToLower(key);
    if k == "privatekey" then p.(privateKey := value)
    else if k == "listenport" then p.(listenPort := ParseInt(value).value)
    else if k == "address" then p.(address := value)
    else if k == "mtu" then p.(mtu := ParseInt(value).value)
    else if k == "dns" then p.(dns := value)
    else if k == "jc" then p.(jc := ParseInt(value).value)
    else if k == "jmin" then p.(jmin := ParseInt(value).value)
    else if k == "jmax" then p.(jmax := ParseInt(value).value)
    else if k == "s1" then p.(s1 := ParseInt(value).value)
    else if k == "s2" then p.(s2 := ParseInt(value).value)
    else if k == "s3" then p.(s3 := ParseInt(value).value)
    else if k == "s4" then p.(s4 := ParseInt(value).value)
    else if k == "h1" then p.(h1 := value)
    else if k == "h2" then p.(h2 := value)
    else if k == "h3" then p.(h3 := value)
    else if k == "h4" then p.(h4 := value)
    else if k == "i1" then p.(i1 := value)
    else if k == "i2" then p.(i2 := value)
    else if k == "i3" then p.(i3 := value)
    else if k == "i4" then p.(i4 := value)
    else if k == "i5" then p.(i5 := value)
    else if k == "postup" then p.(postUp := value)
    else if k == "postdown" then p.(postDown := value)
    else p
  }

  function AssignPeerField(p: ParsedPeer, key: string, value: string): ParsedPeer {
    var k := ToLower(key);
    if k == "publickey" then p.(publicKey := value)
    else if k == "presharedkey" then p.(presharedKey := value)
    else if k == "allowedips" then p.(allowedIPs := SplitAllowedIPs(value))
    else if k == "persistentkeepalive" then p.(keepAlive := ParseInt(value).value)
    else p
  }

  function TrimmedNonBlank(parts: seq<string>): seq<string> {
    if parts == [] then []
    else
      var last := TrimSpace(parts[|parts| - 1]);
      TrimmedNonBlank(parts[..|parts| - 1]) + (if last != "" then [last] else [])
  }

  function SplitAllowedIPs(value: string): seq<string> {
    if value == "" || value == "(none)" then [] else TrimmedNonBlank(Split(value, ','))
  }

  method SplitAllowedIPsLoop(value: string) returns (out: seq<string>)
    ensures out == SplitAllowedIPs(value)
  {
    if value == "" || value == "(none)" {
      return [];
    }
    var parts := Split(value, ',');
    out := [];
    for i := 0 to |parts|
      invariant out == TrimmedNonBlank(parts[..i])
    {
      assert parts[..i+1][..i] == parts[..i];
      var v := TrimSpace(parts[i]);
      if v != "" {
        out := out + [v];
      }
    }
    assert parts[..|parts|] == parts;
  }

  /** strings.Trim(line, "[]"). */
  function TrimBrackets(line: string): string {
    if line != "" && line[0] in {'[', ']'} then TrimBrackets(line[1..])
    else if line != "" && line[|line| - 1] in {'[', ']'} then TrimBrackets(line[..|line| - 1])
    else line
  }

  datatype State = State(section: string, peer: Option<ParsedPeer>, comment: string, parsed: ParsedInterface)

  const Start := State("", None, "", NewInterface)

  /** Appends the open peer, if it has a public key, naming it after its first comment. */
  function Flush(st: State): ParsedInterface {
    if st.section == "peer" && st.peer.Some? && st.peer.value.publicKey != "" then
      var p := st.peer.value;
      st.parsed.(peers := st.parsed.peers + [if p.name == "" then p.(name := st.comment) else p])
    else st.parsed
  }

  function StepLine(st: State, raw: string): State {
    var line := TrimSpace(raw);
    if line == "" || HasPrefix(line, "#") then
      if HasPrefix(line, "#") && st.section == "peer" && st.peer.Some? then
        var comment := TrimSpace(line[1..]);
        if comment != "" && st.comment == "" then st.(comment := comment) else st
      else st
    else if HasPrefix(line, "[") && HasSuffix(line, "]") then
      var closed := if st.section == "peer" && st.peer.Some?
                    then State(st.section, None, "", Flush(st)) else st;
      var section := ToLower(TrimBrackets(line));
      closed.(section := section, peer := if section == "peer" then Some(NewPeer) else closed.peer)
    else
      match Cut(line, '=')
      case None => st
      case Some((k, v)) =>
        if st.section == "interface" then
          st.(parsed := AssignInterfaceField(st.parsed, TrimSpace(k), TrimSpace(v)))
        else if st.section == "peer" then
          var p := if st.peer.None? then NewPeer else st.peer.value;
          st.(peer := Some(AssignPeerField(p, TrimSpace(k), TrimSpace(v))))
        else st
  }

  function RunLines(lines: seq<string>): State {
    if lines == [] then Start else StepLine(RunLines(lines[..|lines| - 1]), lines[|lines| - 1])
  }

  function DropCR(line: string): string {
    if HasSuffix(line, "\r") then line[..|line| - 1] else line
  }

  /** bufio.ScanLines: newline-separated lines, a trailing carriage return dropped, no empty last line. */
  function ScanLines(text: string): seq<string> {
    var parts := Split(text, '\n');
    var kept := if parts[|parts| - 1] == "" then parts[..|parts| - 1] else parts;
    seq(|kept|, i requires 0 <= i < |kept| => DropCR(kept[i]))
  }

  function ParseText(text: string): ParsedInterface {
    Flush(RunLines(ScanLines(text)))
  }

  /** ParseConfigFile over the text of a file. */
  method ParseConfig(text: string) returns (parsed: ParsedInterface)
    ensures parsed == ParseText(text)
  {
    hide TrimSpace, Cut, ToLower, TrimBrackets, ScanLines, AssignInterfaceField, AssignPeerField;
    parsed := NewInterface;
    var section, peerComment := "", "";
    var peer: Option<ParsedPeer> := None;
    var lines := ScanLines(text);
    for i := 0 to |lines|
      invariant State(section, peer, peerComment, parsed) == RunLines(lines[..i])
    {
      assert lines[..i+1][..i] == lines[..i];
      var line := TrimSpace(lines[i]);
      if line == "" || HasPrefix(line, "#") {
        if HasPrefix(line, "#") && section == "peer" && peer.Some? {
          var comment := TrimSpace(line[1..]);
          if comment != "" && peerComment == "" {
            peerComment := comment;
          }
        }
        continue;
      }
      if HasPrefix(line, "[") && HasSuffix(line, "]") {
        if section == "peer" && peer.Some? {
          if peer.value.publicKey != "" {
            if peer.value.name == "" {
              peer := Some(peer.value.(name := peerComment));
            }
            parsed := parsed.(peers := parsed.peers + [peer.value]);
          }
          peer := None;
          peerComment := "";
        }
        section := ToLower(TrimBrackets(line));
        if section == "peer" {
          peer := Some(NewPeer);
        }
        continue;
      }
      var cut := Cut(line, '=');
      if cut.None? {
        continue;
      }
      var key, value := TrimSpace(cut.value.0), TrimSpace(cut.value.1);
      if section == "interface" {
        parsed := AssignInterfaceField(parsed, key, value);
      } else if section == "peer" {
        if peer.None? {
          peer := Some(NewPeer);
        }
        peer := Some(AssignPeerField(peer.value, key, value));
      }
    }
    assert lines[..|lines|] == lines;
    if section == "peer" && peer.Some? && peer.value.publicKey != "" {
      if peer.value.name == "" {
        peer := Some(peer.value.(name := peerComment));
      }
      parsed := parsed.(peers := parsed.peers + [peer.value]);
    }
  }
}
