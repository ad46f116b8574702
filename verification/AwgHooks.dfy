/**
 The firewall hooks of an AmneziaWG interface (buildPostUp and buildPostDown, internal/awg/manager.go),
 run on a table of iptables rules: taking the interface down removes what bringing it up has added.
 */
module AwgHooks {
  import opened Prelude
  import opened Text
  import opened AwgConfig

  /** What a command does to the rules: iptables -A appends one, -D deletes one; the rest leaves them alone. */
  datatype Effect = Append(rule: string) | Delete(rule: string) | NoRule

  function EffectOf(cmd: string): Effect {
    if HasPrefix(cmd, "iptables -t nat -A ") then Append("nat " + cmd[19..])
    else if HasPrefix(cmd, "iptables -t nat -D ") then Delete("nat " + cmd[19..])
    else if HasPrefix(cmd, "iptables -A ") then Append("filter " + cmd[12..])
    else if HasPrefix(cmd, "iptables -D ") then Delete("filter " + cmd[12..])
    else NoRule
  }

  /** Run in turn; None when a rule to delete is not there. */
  function RunCommands(rules: multiset<string>, cmds: seq<string>): Option<multiset<string>>
    decreases |cmds|
  {
    if cmds == [] then Some(rules)
    else
      match EffectOf(cmds[0])
      case Append(r) => RunCommands(rules + multiset{r}, cmds[1..])
      case Delete(r) => if r in rules then RunCommands(rules - multiset{r}, cmds[1..]) else None
      case NoRule => RunCommands(rules, cmds[1..])
  }

  /** The commands of a hook, which the shell separates at semicolons. */
  function CommandsOf(hook: string): seq<string> {
    var parts := Split(hook, ';');
    seq(|parts|, i requires 0 <= i < |parts| => TrimSpace(parts[i]))
  }

  // ---- splitting the printed hooks -------------------------------------------------------

  /** A command of its own: visible at both ends, without a semicolon. */
  predicate Command(cmd: string) {
    ';' !in cmd && Tight(cmd) && cmd != ""
  }

  lemma SpaceTrims(cmd: string)
    requires Command(cmd)
    ensures TrimSpace(cmd) == cmd && TrimSpace(" " + cmd) == cmd
  {
    hide IsSpace, TrimSpace;
    SpaceIsSpace();
    var s := " " + cmd;
    assert s[1..|s|] == cmd && s[1] == cmd[0] && s[|s| - 1] == cmd[|cmd| - 1];
    TrimIs(s, 1, |s|);
    assert cmd[0..|cmd|] == cmd;
    TrimIs(cmd, 0, |cmd|);
  }

  lemma SpaceIsSpace()
    ensures IsSpace(' ')
  {
  }

  lemma {:induction false} CommandsBack(cmds: seq<string>)
    requires cmds != [] && forall i :: 0 <= i < |cmds| ==> Command(cmds[i])
    ensures CommandsOf(Join(cmds, "; ")) == cmds
    ensures CommandsOf(" " + Join(cmds, "; ")) == cmds
  {
    hide Split, TrimSpace, Command;
    var first := cmds[0];
    SpaceTrims(first);
    NoSemicolon(first);
    if |cmds| == 1 {
      SplitHead(first, ';', "");
      SplitHead(" " + first, ';', "");
    } else {
      var rest := cmds[1..];
      CommandsBack(rest);
      var tail := " " + Join(rest, "; ");
      assert Join(cmds, "; ") == first + [';'] + tail;
      assert " " + Join(cmds, "; ") == (" " + first) + [';'] + tail;
      SplitHead(first, ';', tail);
      SplitHead(" " + first, ';', tail);
      CommandsMore(first, first, tail);
      CommandsMore(" " + first, first, tail);
    }
  }

  lemma NoSemicolon(cmd: string)
    requires Command(cmd)
    ensures ';' !in cmd && ';' !in " " + cmd
  {
  }

  lemma CommandsMore(part: string, cmd: string, tail: string)
    requires Split(part + [';'] + tail, ';') == [part] + Split(tail, ';') && TrimSpace(part) == cmd
    ensures CommandsOf(part + [';'] + tail) == [cmd] + CommandsOf(tail)
  {
    hide Split, TrimSpace;
  }

  // ---- the rules ----------------------------------------------------------------------------

  function NatSpec(s: Settings, host: Host): string {
    "POSTROUTING -s " + host.ipv4Prefix + " -o " + ExitInterface(s, host) + " -j MASQUERADE"
  }

  function ForwardSpec(host: Host, incoming: bool): string {
    (if incoming then "FORWARD -i " else "FORWARD -o ") + host.interfaceName + " -j ACCEPT"
  }

  function NatCommand(add: bool, s: Settings, host: Host): string {
    (if add then "iptables -t nat -A " else "iptables -t nat -D ") + NatSpec(s, host)
  }

  function ForwardCommand(add: bool, host: Host, incoming: bool): string {
    (if add then "iptables -A " else "iptables -D ") + ForwardSpec(host, incoming)
  }

  const Sysctl := "sysctl -w net.ipv4.ip_forward=1"

  /** Nothing the shell would split at. */
  ghost predicate NoSemicolons(s: Settings, host: Host) {
    ';' !in host.ipv4Prefix && ';' !in ExitInterface(s, host) && ';' !in host.interfaceName
  }

  lemma Glue(head: string, op: string, first: string, p: string, m: string, e: string, t: string)
    requires head == op + first
    ensures head + p + m + e + t == op + (first + p + m + e + t)
    ensures head + p + t == op + (first + p + t)
  {
  }

  lemma PrintedNatHeads()
    ensures "iptables -t nat -A POSTROUTING -s " == "iptables -t nat -A " + "POSTROUTING -s "
    ensures "iptables -t nat -D POSTROUTING -s " == "iptables -t nat -D " + "POSTROUTING -s "
  {
  }

  lemma PrintedForwardHeads()
    ensures "iptables -A FORWARD -i " == "iptables -A " + "FORWARD -i "
    ensures "iptables -A FORWARD -o " == "iptables -A " + "FORWARD -o "
    ensures "iptables -D FORWARD -i " == "iptables -D " + "FORWARD -i "
    ensures "iptables -D FORWARD -o " == "iptables -D " + "FORWARD -o "
  {
  }

  lemma PrintedNat(s: Settings, host: Host)
    ensures "iptables -t nat -A POSTROUTING -s " + host.ipv4Prefix + " -o " + ExitInterface(s, host) + " -j MASQUERADE"
      == NatCommand(true, s, host)
    ensures "iptables -t nat -D POSTROUTING -s " + host.ipv4Prefix + " -o " + ExitInterface(s, host) + " -j MASQUERADE"
      == NatCommand(false, s, host)
  {
    hide ExitInterface;
    PrintedNatHeads();
    var p, e := host.ipv4Prefix, ExitInterface(s, host);
    Glue("iptables -t nat -A POSTROUTING -s ", "iptables -t nat -A ", "POSTROUTING -s ", p, " -o ", e,
      " -j MASQUERADE");
    Glue("iptables -t nat -D POSTROUTING -s ", "iptables -t nat -D ", "POSTROUTING -s ", p, " -o ", e,
      " -j MASQUERADE");
  }

  lemma PrintedForward(host: Host)
    ensures "iptables -A FORWARD -i " + host.interfaceName + " -j ACCEPT" == ForwardCommand(true, host, true)
    ensures "iptables -A FORWARD -o " + host.interfaceName + " -j ACCEPT" == ForwardCommand(true, host, false)
    ensures "iptables -D FORWARD -i " + host.interfaceName + " -j ACCEPT" == ForwardCommand(false, host, true)
    ensures "iptables -D FORWARD -o " + host.interfaceName + " -j ACCEPT" == ForwardCommand(false, host, false)
  {
    PrintedForwardHeads();
    Glue("iptables -A FORWARD -i ", "iptables -A ", "FORWARD -i ", host.interfaceName, "", "", " -j ACCEPT");
    Glue("iptables -A FORWARD -o ", "iptables -A ", "FORWARD -o ", host.interfaceName, "", "", " -j ACCEPT");
    Glue("iptables -D FORWARD -i ", "iptables -D ", "FORWARD -i ", host.interfaceName, "", "", " -j ACCEPT");
    Glue("iptables -D FORWARD -o ", "iptables -D ", "FORWARD -o ", host.interfaceName, "", "", " -j ACCEPT");
  }

  lemma UpCommands(s: Settings, host: Host)
    requires TrimSpace(s.postUp) == "" && host.ipv4Prefix != "" && NoSemicolons(s, host)
    ensures CommandsOf(BuildPostUp(s, host))
      == [NatCommand(true, s, host), ForwardCommand(true, host, true), ForwardCommand(true, host, false), Sysctl]
  {
    hide CommandsOf, ExitInterface, TrimSpace, EffectOf, Command, NatCommand, ForwardCommand, Join;
    NatIsCommand(true, s, host);
    ForwardIsCommand(true, host, true);
    ForwardIsCommand(true, host, false);
    SysctlIsCommand();
    CommandsBack(
      [NatCommand(true, s, host), ForwardCommand(true, host, true), ForwardCommand(true, host, false), Sysctl]);
    PrintedNat(s, host);
    PrintedForward(host);
  }

  lemma DownCommands(s: Settings, host: Host)
    requires TrimSpace(s.postDown) == "" && host.ipv4Prefix != "" && NoSemicolons(s, host)
    ensures CommandsOf(BuildPostDown(s, host))
      == [NatCommand(false, s, host), ForwardCommand(false, host, true), ForwardCommand(false, host, false)]
  {
    hide CommandsOf, ExitInterface, TrimSpace, EffectOf, Command, NatCommand, ForwardCommand, Join;
    NatIsCommand(false, s, host);
    ForwardIsCommand(false, host, true);
    ForwardIsCommand(false, host, false);
    CommandsBack([NatCommand(false, s, host), ForwardCommand(false, host, true), ForwardCommand(false, host, false)]);
    PrintedNat(s, host);
    PrintedForward(host);
  }

  lemma PrefixOf(s: string, p: string, q: string, k: nat)
    requires |p| <= |s| && s[..|p|] == p && k < |p| && k < |q| && p[k] != q[k]
    ensures HasPrefix(s, p) && !HasPrefix(s, q)
  {
    assert s[..|p|][k] == s[k];
    assert |q| <= |s| ==> s[..|q|][k] == s[k];
  }

  lemma NatEffect(rest: string)
    ensures EffectOf("iptables -t nat -A " + rest) == Append("nat " + rest)
    ensures EffectOf("iptables -t nat -D " + rest) == Delete("nat " + rest)
  {
    hide HasPrefix;
    var a, d := "iptables -t nat -A " + rest, "iptables -t nat -D " + rest;
    assert a[19..] == rest && d[19..] == rest;
    PrefixOf(a, "iptables -t nat -A ", "iptables -t nat -D ", 17);
    PrefixOf(d, "iptables -t nat -D ", "iptables -t nat -A ", 17);
  }

  lemma FilterEffect(rest: string)
    ensures EffectOf("iptables -A " + rest) == Append("filter " + rest)
    ensures EffectOf("iptables -D " + rest) == Delete("filter " + rest)
  {
    hide HasPrefix;
    var a, d := "iptables -A " + rest, "iptables -D " + rest;
    assert a[12..] == rest && d[12..] == rest;
    PrefixOf(a, "iptables -A ", "iptables -t nat -A ", 10);
    PrefixOf(a, "iptables -A ", "iptables -t nat -D ", 10);
    PrefixOf(d, "iptables -D ", "iptables -t nat -A ", 10);
    PrefixOf(d, "iptables -D ", "iptables -t nat -D ", 10);
    PrefixOf(d, "iptables -D ", "iptables -A ", 10);
  }

  lemma CleanCommand(head: string, spec: string)
    requires head != "" && !IsSpace(head[0]) && ';' !in head
    requires spec != "" && !IsSpace(spec[|spec| - 1]) && ';' !in spec
    ensures Command(head + spec)
  {
    hide IsSpace;
  }

  lemma CleanSpec(head: string, middle: string, tail: string)
    requires ';' !in head && ';' !in middle && ';' !in tail && tail != "" && !IsSpace(tail[|tail| - 1])
    ensures var spec := head + middle + tail; ';' !in spec && spec != "" && !IsSpace(spec[|spec| - 1])
  {
    hide IsSpace;
  }

  lemma NatIsCommand(add: bool, s: Settings, host: Host)
    requires NoSemicolons(s, host)
    ensures Command(NatCommand(add, s, host))
    ensures var rule := "nat " + NatSpec(s, host);
      EffectOf(NatCommand(add, s, host)) == if add then Append(rule) else Delete(rule)
  {
    hide ExitInterface, EffectOf, Command;
    CleanSpec("POSTROUTING -s " + host.ipv4Prefix + " -o ", ExitInterface(s, host), " -j MASQUERADE");
    CleanCommand("iptables -t nat -A ", NatSpec(s, host));
    CleanCommand("iptables -t nat -D ", NatSpec(s, host));
    NatEffect(NatSpec(s, host));
  }

  lemma ForwardIsCommand(add: bool, host: Host, incoming: bool)
    requires ';' !in host.interfaceName
    ensures Command(ForwardCommand(add, host, incoming))
    ensures var rule := "filter " + ForwardSpec(host, incoming);
      EffectOf(ForwardCommand(add, host, incoming)) == if add then Append(rule) else Delete(rule)
  {
    hide EffectOf, Command;
    CleanSpec(if incoming then "FORWARD -i " else "FORWARD -o ", host.interfaceName, " -j ACCEPT");
    CleanCommand("iptables -A ", ForwardSpec(host, incoming));
    CleanCommand("iptables -D ", ForwardSpec(host, incoming));
    FilterEffect(ForwardSpec(host, incoming));
  }

  lemma SysctlIsCommand()
    ensures Command(Sysctl) && EffectOf(Sysctl) == NoRule
  {
    hide HasPrefix;
    PrefixOf(Sysctl, Sysctl, "iptables -t nat -A ", 0);
    PrefixOf(Sysctl, Sysctl, "iptables -t nat -D ", 0);
    PrefixOf(Sysctl, Sysctl, "iptables -A ", 0);
    PrefixOf(Sysctl, Sysctl, "iptables -D ", 0);
  }

  // ---- up, then down ---------------------------------------------------------------------------

  /** Masquerading of the interface's addresses at the exit, and forwarding from and to it. */
  function RulesOf(s: Settings, host: Host): multiset<string> {
    var exit := if TrimSpace(s.externalInterface) != "" then TrimSpace(s.externalInterface) else host.defaultInterface;
    multiset{"nat POSTROUTING -s " + host.ipv4Prefix + " -o " + exit + " -j MASQUERADE"}
    + multiset{"filter FORWARD -i " + host.interfaceName + " -j ACCEPT"}
    + multiset{"filter FORWARD -o " + host.interfaceName + " -j ACCEPT"}
  }

  lemma RulesAre(s: Settings, host: Host, rules: multiset<string>)
    ensures rules + RulesOf(s, host) == rules + multiset{"nat " + NatSpec(s, host)}
      + multiset{"filter " + ForwardSpec(host, true)} + multiset{"filter " + ForwardSpec(host, false)}
  {
    hide TrimSpace;
    assert "nat POSTROUTING -s " == "nat " + "POSTROUTING -s " && "filter FORWARD -i " == "filter " + "FORWARD -i ";
    assert "filter FORWARD -o " == "filter " + "FORWARD -o ";
    Glue("nat POSTROUTING -s ", "nat ", "POSTROUTING -s ", host.ipv4Prefix, " -o ", ExitInterface(s, host),
      " -j MASQUERADE");
    Glue("filter FORWARD -i ", "filter ", "FORWARD -i ", host.interfaceName, "", "", " -j ACCEPT");
    Glue("filter FORWARD -o ", "filter ", "FORWARD -o ", host.interfaceName, "", "", " -j ACCEPT");
  }

  lemma RunFirst(rules: multiset<string>, cmd: string, rest: seq<string>, r: string)
    ensures EffectOf(cmd) == Append(r) ==>
      RunCommands(rules, [cmd] + rest) == RunCommands(rules + multiset{r}, rest)
    ensures EffectOf(cmd) == Delete(r) ==>
      RunCommands(rules + multiset{r}, [cmd] + rest) == RunCommands(rules, rest)
  {
    hide EffectOf;
    assert ([cmd] + rest)[1..] == rest;
    assert rules + multiset{r} - multiset{r} == rules;
  }

  lemma RunThree(rules: multiset<string>, x: string, y: string, z: string, rest: seq<string>, a: string, b: string,
                 c: string)
    ensures EffectOf(x) == Append(a) && EffectOf(y) == Append(b) && EffectOf(z) == Append(c) ==>
      RunCommands(rules, [x, y, z] + rest) == RunCommands(rules + multiset{a} + multiset{b} + multiset{c}, rest)
    ensures EffectOf(x) == Delete(a) && EffectOf(y) == Delete(b) && EffectOf(z) == Delete(c) ==>
      RunCommands(rules + multiset{a} + multiset{b} + multiset{c}, [x, y, z] + rest) == RunCommands(rules, rest)
  {
    hide EffectOf, RunCommands;
    assert [x, y, z] + rest == [x] + ([y] + ([z] + rest));
    RunFirst(rules, x, [y] + ([z] + rest), a);
    RunFirst(rules + multiset{a}, y, [z] + rest, b);
    RunFirst(rules + multiset{a} + multiset{b}, z, rest, c);
    assert rules + multiset{a} + multiset{b} + multiset{c} == rules + multiset{b} + multiset{c} + multiset{a};
    RunFirst(rules + multiset{b} + multiset{c}, x, [y] + ([z] + rest), a);
    assert rules + multiset{b} + multiset{c} == rules + multiset{c} + multiset{b};
    RunFirst(rules + multiset{c}, y, [z] + rest, b);
    RunFirst(rules, z, rest, c);
  }

  /** Bringing the interface up adds its three rules; with no IPv4 prefix, none. */
  lemma UpAdds(s: Settings, host: Host, rules: multiset<string>)
    requires TrimSpace(s.postUp) == "" && NoSemicolons(s, host)
    ensures RunCommands(rules, CommandsOf(BuildPostUp(s, host)))
      == Some(if host.ipv4Prefix == "" then rules else rules + RulesOf(s, host))
  {
    hide CommandsOf, EffectOf, NatCommand, ForwardCommand, NatSpec, ForwardSpec, RulesOf, TrimSpace, Command;
    SysctlIsCommand();
    if host.ipv4Prefix == "" {
      CommandsBack([Sysctl]);
    } else {
      UpCommands(s, host);
      NatIsCommand(true, s, host);
      ForwardIsCommand(true, host, true);
      ForwardIsCommand(true, host, false);
      var x, y, z := NatCommand(true, s, host), ForwardCommand(true, host, true), ForwardCommand(true, host, false);
      RunThree(rules, x, y, z, [Sysctl],
        "nat " + NatSpec(s, host), "filter " + ForwardSpec(host, true), "filter " + ForwardSpec(host, false));
      assert [x, y, z] + [Sysctl] == [x, y, z, Sysctl];
      RulesAre(s, host, rules);
    }
  }

  /** Taking it down again leaves the rules as they were before. */
  lemma DownUndoesUp(s: Settings, host: Host, rules: multiset<string>)
    requires TrimSpace(s.postUp) == "" && TrimSpace(s.postDown) == "" && NoSemicolons(s, host)
    ensures var up := RunCommands(rules, CommandsOf(BuildPostUp(s, host)));
      up.Some? && RunCommands(up.value, CommandsOf(BuildPostDown(s, host))) == Some(rules)
  {
    hide CommandsOf, EffectOf, NatCommand, ForwardCommand, NatSpec, ForwardSpec, RulesOf, TrimSpace, Command;
    UpAdds(s, host, rules);
    if host.ipv4Prefix == "" {
      NoDownCommands();
    } else {
      DownCommands(s, host);
      NatIsCommand(false, s, host);
      ForwardIsCommand(false, host, true);
      ForwardIsCommand(false, host, false);
      var x, y, z := NatCommand(false, s, host), ForwardCommand(false, host, true), ForwardCommand(false, host, false);
      RunThree(rules, x, y, z, [],
        "nat " + NatSpec(s, host), "filter " + ForwardSpec(host, true), "filter " + ForwardSpec(host, false));
      assert [x, y, z] + [] == [x, y, z];
      RulesAre(s, host, rules);
    }
  }

  lemma NoDownCommands()
    ensures CommandsOf("") == [""] && EffectOf("") == NoRule
  {
  }

  /** Hooks of the settings' own are used as they are, trimmed. */
  lemma OwnHooks(s: Settings, host: Host)
    ensures TrimSpace(s.postUp) != "" ==> BuildPostUp(s, host) == TrimSpace(s.postUp)
    ensures TrimSpace(s.postDown) != "" ==> BuildPostDown(s, host) == TrimSpace(s.postDown)
    ensures TrimSpace(s.postDown) == "" && host.ipv4Prefix == "" ==> BuildPostDown(s, host) == ""
  {
  }
}
