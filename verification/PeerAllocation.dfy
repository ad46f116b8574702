/**
 Collecting the peers of an AmneziaWG inbound (collectPeers, internal/awg/manager.go): clients
 without addresses of their own are assigned the lowest one no earlier client has.  Which
 addresses that protects, and exactly which it does not.
 */
module PeerAllocation {
  import opened Prelude
  import opened Text
  import opened Allocators

  datatype Cidr = Cidr(addr: Addr, bits: nat)

  /** A client as the settings hold it, keys trimmed and derived, addresses normalized. */
  datatype Client = Client(
    enabled: bool, email: string, publicKey: string, preshared: string, allowed: seq<Cidr>, keepAlive: int)

  datatype Peer = Peer(email: string, publicKey: string, preshared: string, allowed: seq<Cidr>, keepAlive: int)

  predicate Skipped(c: Client) {
    !c.enabled || TrimSpace(c.email) == "" || c.publicKey == ""
  }

  /** The client's address is assigned, not given. */
  predicate AutoAssigned(c: Client) { !Skipped(c) && c.allowed == [] }

  function AddressesOf(entries: seq<Cidr>): set<Addr> {
    set i | 0 <= i < |entries| :: entries[i].addr
  }

  function Used(peers: seq<Peer>): seq<Cidr> {
    if peers == [] then [] else Used(peers[..|peers| - 1]) + peers[|peers| - 1].allowed
  }

  function PeerOf(c: Client, allowed: seq<Cidr>): Peer {
    Peer(c.email, c.publicKey, c.preshared, allowed, c.keepAlive)
  }

  // ---- the server's prefix ----------------------------------------------------------------

  /** How many IPv4 addresses share a prefix of this many bits. */
  function Size(bits: nat): (n: nat)
    ensures n > 0
    decreases 32 - bits
  {
    if bits >= 32 then 1 else 2 * Size(bits + 1)
  }

  lemma RoundDown(n: nat, size: nat)
    requires size > 0
    ensures 0 <= n / size * size <= n < n / size * size + size
  {
    assert n == n / size * size + n % size;
  }

  function Masked(c: Cidr): (p: Prefix)
    ensures Contains(p, c.addr)
  {
    var size := Size(c.bits);
    RoundDown(c.addr.n, size);
    Prefix(c.addr.v6, c.addr.n / size * size, size)
  }

  /** Where the first IPv4 entry of the server's address list is, or its length. */
  function FirstIPv4(server: seq<Option<Cidr>>): (i: nat)
    ensures i <= |server| && forall k :: 0 <= k < i ==> server[k].None? || server[k].value.addr.v6
    ensures i < |server| ==> server[i].Some? && !server[i].value.addr.v6
  {
    if server == [] then 0
    else if server[0].Some? && !server[0].value.addr.v6 then 0
    else 1 + FirstIPv4(server[1..])
  }

  /** The pool: the server's IPv4 prefix, or the default one; entries that do not parse are None. */
  function Base(server: seq<Option<Cidr>>): Prefix {
    if FirstIPv4(server) < |server| then Masked(server[FirstIPv4(server)].value) else DefaultPool
  }

  method ServerIPv4Prefix(server: seq<Option<Cidr>>) returns (base: Option<Prefix>)
    ensures Base(server) == if base.Some? then base.value else DefaultPool
  {
    for i := 0 to |server|
      invariant i <= FirstIPv4(server)
    {
      if server[i].None? || server[i].value.addr.v6 {
        continue;
      }
      return Some(Masked(server[i].value));
    }
    return None;
  }

  /** allocateAddress: the lowest free address from the second one after the network address. */
  method AllocateAddress(used: seq<Cidr>, base: Option<Prefix>) returns (r: Option<Addr>)
    ensures var p := if base.Some? then base.value else DefaultPool;
      LeastFree(p, p.network + 2, AddressesOf(used), r)
  {
    var p := if base.Some? then base.value else DefaultPool;
    var taken: set<Addr> := {};
    for i := 0 to |used|
      invariant taken == set k | 0 <= k < i :: used[k].addr
    {
      taken := taken + {used[i].addr};
    }
    r := Search(p, p.network + 2, taken);
  }

  // ---- collecting ----------------------------------------------------------------------------

  /** What the next client without an address would get. */
  function NextAddress(peers: seq<Peer>, base: Prefix): (r: Option<Addr>)
    ensures LeastFree(base, base.network + 2, AddressesOf(Used(peers)), r)
  {
    Lowest(base, base.network + 2, AddressesOf(Used(peers)))
  }

  function AddClient(peers: seq<Peer>, base: Prefix, c: Client): Option<seq<Peer>> {
    if Skipped(c) then Some(peers)
    else if c.allowed != [] then Some(peers + [PeerOf(c, c.allowed)])
    else
      match NextAddress(peers, base)
      case None => None
      case Some(a) => Some(peers + [PeerOf(c, [Cidr(a, 32)])])
  }

  /** The peers of the clients; None when some client finds the pool used up. */
  function Collect(clients: seq<Client>, base: Prefix): Option<seq<Peer>> {
    if clients == [] then Some([])
    else
      match Collect(clients[..|clients| - 1], base)
      case None => None
      case Some(peers) => AddClient(peers, base, clients[|clients| - 1])
  }

  /** Peers kept from older settings, those with a key. */
  function Legacy(inherited: seq<Peer>): seq<Peer> {
    if inherited == [] then []
    else
      var p := inherited[|inherited| - 1];
      Legacy(inherited[..|inherited| - 1])
        + (if TrimSpace(p.publicKey) == "" then []
           else [p.(publicKey := TrimSpace(p.publicKey), preshared := TrimSpace(p.preshared))])
  }

  method CollectPeers(clients: seq<Client>, inherited: seq<Peer>, server: seq<Option<Cidr>>)
    returns (out: Option<seq<Peer>>)
    ensures out == match Collect(clients, Base(server))
                   case None => None
                   case Some(peers) => Some(peers + Legacy(inherited))
  {
    hide Collect, Base, Legacy;
    out := CollectClients(clients, server);
    if out.None? {
      return;
    }
    var peers := AppendInherited(out.value, inherited);
    out := Some(peers);
  }

  /** The first loop of collectPeers. */
  method CollectClients(clients: seq<Client>, server: seq<Option<Cidr>>) returns (out: Option<seq<Peer>>)
    ensures out == Collect(clients, Base(server))
  {
    hide Skipped, LeastFree, Base, AddClient, Masked, Contains, Collect, Used, AddressesOf, NextAddress;
    ghost var pool := Base(server);
    var peers: seq<Peer> := [];
    var used: seq<Cidr> := [];
    NoClients(pool);
    assert clients[..0] == [];
    for i := 0 to |clients|
      invariant used == Used(peers) && Collect(clients[..i], pool) == Some(peers)
    {
      var c := clients[i];
      CollectNext(clients, pool, i);
      AddGiven(peers, pool, c);
      if Skipped(c) {
        continue;
      }
      var allowed := c.allowed;
      if |allowed| == 0 {
        var base := ServerIPv4Prefix(server);
        var next := AllocateAddress(used, base);
        AddAssigned(peers, pool, c, next);
        if next.None? {
          StaysNone(clients, pool, i + 1);
          return None;
        }
        allowed := [Cidr(next.value, 32)];
      }
      UsedExtend(peers, PeerOf(c, allowed));
      used := used + allowed;
      peers := peers + [PeerOf(c, allowed)];
    }
    assert clients[..|clients|] == clients;
    out := Some(peers);
  }

  lemma NoClients(base: Prefix)
    ensures Collect([], base) == Some([]) && Used([]) == []
  {
  }

  /** The second loop of collectPeers. */
  method AppendInherited(peers: seq<Peer>, inherited: seq<Peer>) returns (out: seq<Peer>)
    ensures out == peers + Legacy(inherited)
  {
    hide TrimSpace;
    out := peers;
    for i := 0 to |inherited|
      invariant out == peers + Legacy(inherited[..i])
    {
      assert inherited[..i + 1][..i] == inherited[..i];
      var p := inherited[i];
      if TrimSpace(p.publicKey) == "" {
        continue;
      }
      out := out + [Peer(p.email, TrimSpace(p.publicKey), TrimSpace(p.preshared), p.allowed, p.keepAlive)];
    }
    assert inherited[..|inherited|] == inherited;
  }

  lemma CollectNext(clients: seq<Client>, base: Prefix, i: nat)
    requires i < |clients|
    ensures Collect(clients[..i + 1], base)
      == match Collect(clients[..i], base) case None => None case Some(peers) => AddClient(peers, base, clients[i])
  {
    assert clients[..i + 1][..i] == clients[..i];
  }

  lemma AddGiven(peers: seq<Peer>, base: Prefix, c: Client)
    ensures Skipped(c) ==> AddClient(peers, base, c) == Some(peers)
    ensures !Skipped(c) && c.allowed != [] ==> AddClient(peers, base, c) == Some(peers + [PeerOf(c, c.allowed)])
  {
  }

  lemma AddAssigned(peers: seq<Peer>, base: Prefix, c: Client, r: Option<Addr>)
    requires AutoAssigned(c) && LeastFree(base, base.network + 2, AddressesOf(Used(peers)), r)
    ensures r == NextAddress(peers, base)
    ensures AddClient(peers, base, c)
      == match r case None => None case Some(a) => Some(peers + [PeerOf(c, [Cidr(a, 32)])])
  {
    LeastFreeIsUnique(base, base.network + 2, AddressesOf(Used(peers)), r, NextAddress(peers, base));
  }

  lemma {:induction false} StaysNone(clients: seq<Client>, base: Prefix, i: nat)
    requires i <= |clients| && Collect(clients[..i], base).None?
    ensures Collect(clients, base).None?
    decreases |clients| - i
  {
    if i == |clients| {
      assert clients[..i] == clients;
    } else {
      CollectNext(clients, base, i);
      StaysNone(clients, base, i + 1);
    }
  }

  lemma UsedExtend(peers: seq<Peer>, p: Peer)
    ensures Used(peers + [p]) == Used(peers) + p.allowed
  {
    assert (peers + [p])[..|peers + [p]| - 1] == peers;
  }

  /** The pool is used up when client i, who has no address, comes. */
  predicate RunsOut(clients: seq<Client>, base: Prefix, i: nat) {
    && i < |clients| && AutoAssigned(clients[i]) && Collect(clients[..i], base).Some?
    && forall n :: base.network + 2 <= n < base.network + base.size ==>
         Addr(base.v6, n) in AddressesOf(Used(Collect(clients[..i], base).value))
  }

  /** Collecting fails exactly when the pool runs out for some client. */
  lemma {:induction false} FailsExactly(clients: seq<Client>, base: Prefix)
    ensures Collect(clients, base).None? <==> exists i: nat :: RunsOut(clients, base, i)
  {
    hide Skipped, Used, AddressesOf;
    if exists i: nat :: RunsOut(clients, base, i) {
      var i: nat :| RunsOut(clients, base, i);
      CollectNext(clients, base, i);
      assert NextAddress(Collect(clients[..i], base).value, base).None?;
      StaysNone(clients, base, i + 1);
    }
    if Collect(clients, base).None? {
      var n := |clients| - 1;
      FailsExactly(clients[..n], base);
      if i: nat :| RunsOut(clients[..n], base, i) {
        assert clients[..n][..i] == clients[..i];
        assert RunsOut(clients, base, i);
      } else {
        assert RunsOut(clients, base, n);
      }
    }
  }

  // ---- what assigned addresses are protected against ---------------------------------------------

  /** What client i is assigned, if anything. */
  function Assigned(clients: seq<Client>, base: Prefix, i: nat): Option<Addr>
    requires i < |clients|
  {
    match Collect(clients[..i], base)
    case None => None
    case Some(peers) => if AutoAssigned(clients[i]) then NextAddress(peers, base) else None
  }

  /** The addresses of client i's peer, given or assigned. */
  function AddressesAt(clients: seq<Client>, base: Prefix, i: nat): set<Addr>
    requires i < |clients|
  {
    if Skipped(clients[i]) then {}
    else if clients[i].allowed != [] then AddressesOf(clients[i].allowed)
    else if Assigned(clients, base, i).Some? then {Assigned(clients, base, i).value}
    else {}
  }

  /** Collecting records exactly the addresses of each client so far. */
  lemma {:induction false} CollectedAddresses(clients: seq<Client>, base: Prefix, n: nat)
    requires n <= |clients| && Collect(clients[..n], base).Some?
    ensures forall a :: a in AddressesOf(Used(Collect(clients[..n], base).value)) <==>
      exists i :: 0 <= i < n && a in AddressesAt(clients, base, i)
  {
    hide Skipped, AddressesAt, LeastFree;
    if n > 0 {
      CollectNext(clients, base, n - 1);
      CollectedAddresses(clients, base, n - 1);
      LastAddresses(clients, base, n - 1);
    } else {
      NothingUsed();
    }
  }

  lemma NothingUsed()
    ensures AddressesOf(Used([])) == {}
  {
  }

  lemma LastAddresses(clients: seq<Client>, base: Prefix, i: nat)
    requires i < |clients| && Collect(clients[..i + 1], base).Some?
    ensures Collect(clients[..i], base).Some?
    ensures AddressesOf(Used(Collect(clients[..i + 1], base).value))
      == AddressesOf(Used(Collect(clients[..i], base).value)) + AddressesAt(clients, base, i)
  {
    hide Skipped, LeastFree, AddressesOf, Used;
    CollectNext(clients, base, i);
    var c, peers := clients[i], Collect(clients[..i], base).value;
    if !Skipped(c) {
      var allowed := if c.allowed != [] then c.allowed else [Cidr(NextAddress(peers, base).value, 32)];
      UsedExtend(peers, PeerOf(c, allowed));
      AddressesExtend(Used(peers), allowed);
      if c.allowed == [] {
        OneAddress(NextAddress(peers, base).value);
      }
    }
  }

  lemma AddressesExtend(a: seq<Cidr>, b: seq<Cidr>)
    ensures AddressesOf(a + b) == AddressesOf(a) + AddressesOf(b)
  {
    forall x
      ensures x in AddressesOf(a + b) <==> x in AddressesOf(a) + AddressesOf(b)
    {
      if x in AddressesOf(a) {
        var i :| 0 <= i < |a| && a[i].addr == x;
        assert (a + b)[i].addr == x;
      }
      if x in AddressesOf(b) {
        var i :| 0 <= i < |b| && b[i].addr == x;
        assert (a + b)[|a| + i].addr == x;
      }
      if x in AddressesOf(a + b) {
        var i :| 0 <= i < |a + b| && (a + b)[i].addr == x;
        assert i < |a| ==> a[i].addr == x;
        assert i >= |a| ==> b[i - |a|].addr == x;
      }
    }
  }

  lemma OneAddress(a: Addr)
    ensures AddressesOf([Cidr(a, 32)]) == {a}
  {
    assert [Cidr(a, 32)][0].addr == a;
  }

  /** An assigned address is the lowest of the pool, past its first two, that no earlier client has. */
  lemma AssignedIsLeastFree(clients: seq<Client>, base: Prefix, i: nat)
    requires i < |clients| && Assigned(clients, base, i).Some?
    ensures var a := Assigned(clients, base, i).value;
      && Contains(base, a) && base.network + 2 <= a.n
      && (forall k :: 0 <= k < i ==> a !in AddressesAt(clients, base, k))
      && (forall n :: base.network + 2 <= n < a.n ==>
            exists k :: 0 <= k < i && Addr(base.v6, n) in AddressesAt(clients, base, k))
  {
    hide Skipped, AddressesAt, Contains;
    CollectedAddresses(clients, base, i);
  }

  /** Two assigned addresses are never the same. */
  lemma AssignedAreDistinct(clients: seq<Client>, base: Prefix, i: nat, j: nat)
    requires i < j < |clients| && Assigned(clients, base, i).Some? && Assigned(clients, base, j).Some?
    ensures Assigned(clients, base, i) != Assigned(clients, base, j)
  {
    AssignedIsLeastFree(clients, base, j);
    assert Assigned(clients, base, i).value in AddressesAt(clients, base, i);
  }

  /** Another peer with the address client i was assigned. */
  predicate Shared(clients: seq<Client>, base: Prefix, inherited: seq<Peer>, i: nat)
    requires i < |clients|
  {
    var r := Assigned(clients, base, i);
    && r.Some?
    && ((exists j :: 0 <= j < |clients| && j != i && r.value in AddressesAt(clients, base, j))
        || r.value in AddressesOf(Used(Legacy(inherited))))
  }

  /** A later client's own entry, or an inherited peer, names the address client i is assigned. */
  predicate NamedLater(clients: seq<Client>, base: Prefix, inherited: seq<Peer>, i: nat)
    requires i < |clients|
  {
    var r := Assigned(clients, base, i);
    && r.Some?
    && ((exists j :: i < j < |clients| && !Skipped(clients[j]) && r.value in AddressesOf(clients[j].allowed))
        || r.value in AddressesOf(Used(Legacy(inherited))))
  }

  /** An assigned address is shared exactly when a later client or an inherited peer names it. */
  lemma SharedExactly(clients: seq<Client>, base: Prefix, inherited: seq<Peer>, i: nat)
    requires i < |clients|
    ensures Shared(clients, base, inherited, i) <==> NamedLater(clients, base, inherited, i)
  {
    hide Skipped, AddressesOf, Used, Legacy, Assigned;
    var r := Assigned(clients, base, i);
    if r.Some? {
      AssignedIsLeastFree(clients, base, i);
      forall j | i < j < |clients|
        ensures r.value in AddressesAt(clients, base, j) <==>
          !Skipped(clients[j]) && r.value in AddressesOf(clients[j].allowed)
      {
        if Assigned(clients, base, j).Some? {
          AssignedAreDistinct(clients, base, i, j);
        }
        NoEntriesNoAddresses();
      }
    }
  }

  lemma NoEntriesNoAddresses()
    ensures AddressesOf([]) == {}
  {
  }

  /** The input that shows it: the second client names the address the first was just assigned. */
  lemma LaterClientMayCollide(c: Client, d: Client, a: Addr)
    requires a == Addr(false, DefaultPool.network + 2)
    requires AutoAssigned(c) && !Skipped(d) && d.allowed == [Cidr(a, 32)]
    ensures Assigned([c, d], DefaultPool, 0) == Some(a) && a in AddressesAt([c, d], DefaultPool, 1)
  {
    hide Skipped;
    assert [c, d][..0] == [];
    NothingUsed();
    OneAddress(a);
  }

  /** Whatever the clients, an address is never assigned exactly when it lies outside the pool or among its
      first two. */
  lemma NeverAssignedExactly(base: Prefix, s: Addr)
    ensures (forall clients: seq<Client>, i: nat :: i < |clients| ==> Assigned(clients, base, i) != Some(s))
      <==> !Contains(base, s) || s.n < base.network + 2
  {
    hide Assigned, Contains;
    if !Contains(base, s) || s.n < base.network + 2 {
      forall clients: seq<Client>, i: nat | i < |clients|
        ensures Assigned(clients, base, i) != Some(s)
      {
        if Assigned(clients, base, i).Some? {
          AssignedIsLeastFree(clients, base, i);
        }
      }
    } else {
      var clients := CrowdBelow(base, s);
    }
  }

  /** A client that has every address of the pool below s, and one that is then assigned s. */
  lemma CrowdBelow(base: Prefix, s: Addr) returns (clients: seq<Client>)
    requires Contains(base, s) && base.network + 2 <= s.n
    ensures |clients| == 2 && Assigned(clients, base, 1) == Some(s)
  {
    hide LeastFree, Skipped, AddressesOf, Used, Collect, NextAddress;
    var count := s.n - base.network;
    var below := seq(count, k requires 0 <= k < count => Cidr(Addr(base.v6, base.network + k), 32));
    var crowd := Client(true, "a", "k", "", below, 0);
    var last := Client(true, "b", "k", "", [], 0);
    VisibleEmails(crowd, last);
    clients := [crowd, last];
    assert clients[..1] == [crowd];
    OneGiven(crowd, base);
    var peers := [PeerOf(crowd, below)];
    BelowIsTaken(base, s, below);
    LeastFreeIsUnique(base, base.network + 2, AddressesOf(below), NextAddress(peers, base), Some(s));
  }

  lemma OneGiven(c: Client, base: Prefix)
    requires !Skipped(c) && c.allowed != []
    ensures Collect([c], base) == Some([PeerOf(c, c.allowed)]) && Used([PeerOf(c, c.allowed)]) == c.allowed
  {
    hide Skipped;
    assert [c][..0] == [];
    assert Collect([c], base) == Some([] + [PeerOf(c, c.allowed)]);
    UsedExtend([], PeerOf(c, c.allowed));
    assert [] + [PeerOf(c, c.allowed)] == [PeerOf(c, c.allowed)];
    assert [] + c.allowed == c.allowed;
  }

  lemma BelowIsTaken(base: Prefix, s: Addr, below: seq<Cidr>)
    requires Contains(base, s) && |below| == s.n - base.network
    requires forall k :: 0 <= k < |below| ==> below[k] == Cidr(Addr(base.v6, base.network + k), 32)
    ensures base.network + 2 <= s.n ==> LeastFree(base, base.network + 2, AddressesOf(below), Some(s))
  {
    forall n | base.network <= n < s.n
      ensures Addr(base.v6, n) in AddressesOf(below)
    {
      assert below[n - base.network].addr == Addr(base.v6, n);
    }
  }

  lemma VisibleEmails(c: Client, d: Client)
    requires c.enabled && d.enabled && c.email == "a" && d.email == "b" && c.publicKey == d.publicKey == "k"
    ensures !Skipped(c) && !Skipped(d)
  {
    hide TrimSpace;
    assert !IsSpace('a') && !IsSpace('b');
    TightTrims("a");
    TightTrims("b");
  }

  /** The server's own IPv4 address is safe from assignment exactly when it is one of the first two of its prefix. */
  lemma ServerIsSafeExactly(server: seq<Option<Cidr>>)
    requires FirstIPv4(server) < |server|
    ensures var own := server[FirstIPv4(server)].value.addr;
      (forall clients: seq<Client>, i: nat :: i < |clients| ==> Assigned(clients, Base(server), i) != Some(own))
      <==> own.n < Base(server).network + 2
  {
    hide Assigned, Contains;
    NeverAssignedExactly(Base(server), server[FirstIPv4(server)].value.addr);
  }

  /** The input that shows it: with the server at 10.66.66.2/24, the first client is assigned 10.66.66.2. */
  lemma ServerMayCollide(c: Client, server: Cidr)
    requires server == Cidr(Addr(false, 0x0A42_4202), 24) && AutoAssigned(c)
    ensures Assigned([c], Base([Some(server)]), 0) == Some(server.addr)
  {
    hide Skipped;
    assert Size(24) == 256 by {
      assert Size(32) == 1 && Size(31) == 2 && Size(30) == 4 && Size(29) == 8;
      assert Size(28) == 16 && Size(27) == 32 && Size(26) == 64 && Size(25) == 128;
    }
    assert Base([Some(server)]) == DefaultPool;
    assert [c][..0] == [];
    NothingUsed();
  }
}
