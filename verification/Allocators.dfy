/**
 Address, subnet, port and interface-name allocation for AmneziaWG (internal/awg/v2.go and
 internal/awg/provision.go): least-free searches, sound and complete.
 */
module Allocators {
  import opened Prelude
  import opened Text

  datatype Addr = Addr(v6: bool, n: nat)

  /** A masked prefix: its network address and the number of addresses it holds. */
  datatype Prefix = Prefix(v6: bool, network: nat, size: nat)

  /** A pool parameter: blank, unparsable, or a prefix. */
  datatype Pool = BlankPool | BadPool | PoolOf(prefix: Prefix)

  /** 10.66.66.0/24 */
  const DefaultPool := Prefix(false, 0x0A42_4200, 256)

  predicate Contains(p: Prefix, a: Addr) {
    a.v6 == p.v6 && p.network <= a.n < p.network + p.size
  }

  // ---- the search --------------------------------------------------------------------

  /** r is the lowest address of p from `from` on that is not taken; None when all are. */
  ghost predicate LeastFree(p: Prefix, from: nat, taken: set<Addr>, r: Option<Addr>) {
    match r
    case Some(a) =>
      && Contains(p, a) && from <= a.n && a !in taken
      && forall n :: from <= n < a.n ==> Addr(p.v6, n) in taken
    case None => forall n :: from <= n < p.network + p.size ==> Addr(p.v6, n) in taken
  }

  lemma LeastFreeIsUnique(p: Prefix, from: nat, taken: set<Addr>, r: Option<Addr>, s: Option<Addr>)
    requires p.network <= from && LeastFree(p, from, taken, r) && LeastFree(p, from, taken, s)
    ensures r == s
  {
    assert r.Some? ==> r.value == Addr(p.v6, r.value.n);
    assert s.Some? ==> s.value == Addr(p.v6, s.value.n);
  }

  /** The lowest free address, as a function. */
  function Lowest(p: Prefix, from: nat, taken: set<Addr>): (r: Option<Addr>)
    requires p.network <= from
    ensures LeastFree(p, from, taken, r)
    decreases p.network + p.size - from
  {
    if from >= p.network + p.size then None
    else if Addr(p.v6, from) !in taken then Some(Addr(p.v6, from))
    else Lowest(p, from + 1, taken)
  }

  method Search(p: Prefix, from: nat, taken: set<Addr>) returns (r: Option<Addr>)
    requires p.network <= from
    ensures LeastFree(p, from, taken, r)
  {
    var addr := Addr(p.v6, from);
    while Contains(p, addr)
      invariant addr.v6 == p.v6 && from <= addr.n
      invariant forall n :: from <= n < addr.n ==> Addr(p.v6, n) in taken
      decreases p.network + p.size - addr.n
    {
      if addr !in taken {
        return Some(addr);
      }
      addr := Addr(p.v6, addr.n + 1);
    }
    return None;
  }

  /** The addresses the arguments name; entries that do not parse name none. */
  function Taken(server: Option<Addr>, used: seq<Option<Addr>>): set<Addr> {
    (if server.Some? then {server.value} else {})
      + set i | 0 <= i < |used| && used[i].Some? :: used[i].value
  }

  method TakenSet(server: Option<Addr>, used: seq<Option<Addr>>) returns (taken: set<Addr>)
    ensures taken == Taken(server, used)
  {
    taken := {};
    if server.Some? {
      taken := taken + {server.value};
    }
    for i := 0 to |used|
      invariant taken == (if server.Some? then {server.value} else {})
        + set k | 0 <= k < i && used[k].Some? :: used[k].value
    {
      if used[i].Some? {
        taken := taken + {used[i].value};
      }
    }
  }

  /** The lowest pool address after the network address that is neither the server's nor used. */
  method AllocateIPv4(pool: Pool, server: Option<Addr>, used: seq<Option<Addr>>) returns (r: Option<Addr>)
    ensures pool.BadPool? ==> r.None?
    ensures !pool.BadPool? ==>
      var p := if pool.BlankPool? then DefaultPool else pool.prefix;
      LeastFree(p, p.network + 1, Taken(server, used), r)
  {
    var p := DefaultPool;
    match pool {
      case BlankPool =>
      case BadPool => return None;
      case PoolOf(prefix) => p := prefix;
    }
    var taken := TakenSet(server, used);
    r := Search(p, p.network + 1, taken);
  }

  /** As AllocateIPv4, without a default pool. */
  method AllocateIPv6(pool: Pool, server: Option<Addr>, used: seq<Option<Addr>>) returns (r: Option<Addr>)
    ensures !pool.PoolOf? ==> r.None?
    ensures pool.PoolOf? ==> LeastFree(pool.prefix, pool.prefix.network + 1, Taken(server, used), r)
  {
    if !pool.PoolOf? {
      return None;
    }
    var taken := TakenSet(server, used);
    r := Search(pool.prefix, pool.prefix.network + 1, taken);
  }

  // ---- names, ports and subnets for a new interface ------------------------------------------

  function InterfaceCandidate(idx: nat): string { "awg" + Itoa(idx) }

  /** The unused name with the lowest index; the fallback when all are used. */
  ghost predicate NamePicked(used: set<string>, name: string) {
    if forall idx: nat :: idx < 10_000 ==> InterfaceCandidate(idx) in used then name == "awg_panel"
    else
      name !in used && exists idx: nat :: idx < 10_000 && name == InterfaceCandidate(idx)
                                          && forall k: nat :: k < idx ==> InterfaceCandidate(k) in used
  }

  method PickInterfaceName(used: set<string>) returns (name: string)
    ensures NamePicked(used, name) && TrimSpace(name) != ""
  {
    hide InterfaceCandidate;
    for idx := 0 to 10_000
      invariant forall k: nat :: k < idx ==> InterfaceCandidate(k) in used
    {
      var candidate := InterfaceCandidate(idx);
      if candidate !in used {
        NameIsVisible(used, candidate);
        return candidate;
      }
    }
    NameIsVisible(used, "awg_panel");
    return "awg_panel";
  }

  lemma NameIsVisible(used: set<string>, name: string)
    requires NamePicked(used, name)
    ensures TrimSpace(name) != ""
  {
    hide TrimSpace, Itoa;
    assert name[0] == 'a' && !IsSpace('a');
    VisibleStart(name);
  }

  const MinPort := 10000
  const MaxPort := 65535

  predicate Usable(p: int, blocked: set<int>, free: set<int>) { p !in blocked && p in free }

  /** Where the first usable pick is, or the number of picks. */
  function FirstUsable(attempts: seq<nat>, blocked: set<int>, free: set<int>): (i: nat)
    ensures i <= |attempts| && forall k :: 0 <= k < i ==> !Usable(MinPort + attempts[k], blocked, free)
    ensures i < |attempts| ==> Usable(MinPort + attempts[i], blocked, free)
  {
    if attempts == [] || Usable(MinPort + attempts[0], blocked, free) then 0
    else 1 + FirstUsable(attempts[1..], blocked, free)
  }

  /** The first usable pick, else the lowest usable port, else none. */
  ghost predicate PortPicked(blocked: set<int>, attempts: seq<nat>, free: set<int>, port: Option<int>) {
    var i := FirstUsable(attempts, blocked, free);
    if i < |attempts| then port == Some(MinPort + attempts[i])
    else
      match port
      case Some(p) =>
        MinPort <= p <= MaxPort && Usable(p, blocked, free) && forall q :: MinPort <= q < p ==>
          !Usable(q, blocked, free)
      case None => forall q :: MinPort <= q <= MaxPort ==> !Usable(q, blocked, free)
  }

  /** attempts are the random picks, free is what the probe finds. */
  method PickListenPort(blocked: set<int>, attempts: seq<nat>, free: set<int>) returns (port: Option<int>)
    requires forall i :: 0 <= i < |attempts| ==> attempts[i] < MaxPort - MinPort + 1
    ensures PortPicked(blocked, attempts, free, port)
  {
    for i := 0 to |attempts|
      invariant forall k :: 0 <= k < i ==> !Usable(MinPort + attempts[k], blocked, free)
    {
      var p := MinPort + attempts[i];
      if p in blocked {
        continue;
      }
      if p in free {
        return Some(p);
      }
    }
    for p := MinPort to MaxPort + 1
      invariant forall k :: MinPort <= k < p ==> !Usable(k, blocked, free)
    {
      if p in blocked {
        continue;
      }
      if p in free {
        return Some(p);
      }
    }
    return None;
  }

  datatype Subnet = Subnet(second: nat, third: nat)

  function BaseText(s: Subnet): string { "10." + Itoa(s.second) + "." + Itoa(s.third) + ".0/24" }

  /** The subnets tried once any is in use: 10.66.66 to 10.66.255, then everything from 10.67.0 on. */
  predicate Tried(s: Subnet) {
    (s.second == 66 && 66 <= s.third < 256) || (67 <= s.second < 256 && s.third < 256)
  }

  /** Tried earlier. */
  predicate Earlier(c: Subnet, s: Subnet) {
    c.second < s.second || (c.second == s.second && c.third < s.third)
  }

  function ServerText(s: Subnet): string { "10." + Itoa(s.second) + "." + Itoa(s.third) + ".1/24" }

  /** The first unused subnet of the search; the default when none is in use, or all are. */
  ghost predicate SubnetPicked(used: set<string>, s: Subnet) {
    if used == {} || forall c :: Tried(c) ==> BaseText(c) in used then s == Subnet(66, 66)
    else Tried(s) && BaseText(s) !in used && forall c :: Tried(c) && Earlier(c, s) ==> BaseText(c) in used
  }

  method PickSubnet(used: set<string>) returns (s: Subnet)
    ensures SubnetPicked(used, s)
  {
    hide BaseText;
    if used == {} {
      return Subnet(66, 66);
    }
    for third := 66 to 256
      invariant forall t :: 66 <= t < third ==> BaseText(Subnet(66, t)) in used
    {
      if BaseText(Subnet(66, third)) in used {
        continue;
      }
      return Subnet(66, third);
    }
    for second := 67 to 256
      invariant forall c: Subnet :: c.second == 66 && 66 <= c.third < 256 ==> BaseText(c) in used
      invariant forall c: Subnet :: 67 <= c.second < second && c.third < 256 ==> BaseText(c) in used
    {
      for third := 0 to 256
        invariant forall t: nat :: t < third ==> BaseText(Subnet(second, t)) in used
      {
        if BaseText(Subnet(second, third)) in used {
          continue;
        }
        return Subnet(second, third);
      }
    }
    return Subnet(66, 66);
  }

  lemma ServerIsVisible(s: Subnet)
    ensures TrimSpace(ServerText(s)) != ""
  {
    hide TrimSpace, Itoa;
    assert ServerText(s)[0] == '1' && !IsSpace('1');
    VisibleStart(ServerText(s));
  }
}
