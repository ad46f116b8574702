/**
 Which clients and inherited peers collectPeers (internal/awg/manager.go) hands out, and what each
 peer holds, said of the clients' own fields.
 */
module PeerRecords {
  import opened Prelude
  import opened Text
  import opened Allocators
  import opened PeerAllocation

  /** Enabled, with a visible email and a key. */
  predicate HandedOut(c: Client) {
    c.enabled && TrimSpace(c.email) != "" && c.publicKey != ""
  }

  /** p is the client's own record: its identity and keys, and its own addresses or the one it was assigned. */
  predicate RecordOf(p: Peer, c: Client, given: Option<Addr>) {
    && p.email == c.email && p.publicKey == c.publicKey && p.preshared == c.preshared && p.keepAlive == c.keepAlive
    && if c.allowed != [] then p.allowed == c.allowed else given.Some? && p.allowed == [Cidr(given.value, 32)]
  }

  /** The first n clients' peers: at lists the places of exactly the clients handed out, in order. */
  ghost predicate PeersAt(clients: seq<Client>, base: Prefix, n: nat, peers: seq<Peer>, at: seq<nat>)
    requires n <= |clients|
  {
    && |at| == |peers|
    && (forall i, j :: 0 <= i < j < |at| ==> at[i] < at[j])
    && (forall k: nat :: k in at <==> k < n && HandedOut(clients[k]))
    && (forall i :: 0 <= i < |at| ==>
          at[i] < n && RecordOf(peers[i], clients[at[i]], Assigned(clients, base, at[i])))
  }

  /** The peers of the clients are exactly those of the clients handed out, in their order, each its client's own. */
  lemma {:induction false} CollectedRecords(clients: seq<Client>, base: Prefix, n: nat) returns (at: seq<nat>)
    requires n <= |clients| && Collect(clients[..n], base).Some?
    ensures PeersAt(clients, base, n, Collect(clients[..n], base).value, at)
  {
    hide PeersAt, Collect, RecordOf, HandedOut, Assigned, AddClient;
    if n == 0 {
      at := [];
      NoClients(base);
      assert clients[..0] == [];
      NobodyAt(clients, base);
    } else {
      var k := n - 1;
      CollectNext(clients, base, k);
      at := CollectedRecords(clients, base, k);
      var before := Collect(clients[..k], base).value;
      AddedRecord(clients, base, k);
      if HandedOut(clients[k]) {
        var all := Collect(clients[..n], base).value;
        MorePeers(clients, base, k, before, at, all[|before|]);
        assert all == before + [all[|before|]];
        at := at + [k];
      } else {
        SamePeers(clients, base, k, before, at);
      }
    }
  }

  lemma NobodyAt(clients: seq<Client>, base: Prefix)
    ensures PeersAt(clients, base, 0, [], [])
  {
  }

  /** What client k adds: nothing, or one record of its own. */
  lemma AddedRecord(clients: seq<Client>, base: Prefix, k: nat)
    requires k < |clients| && Collect(clients[..k], base).Some?
    ensures var before := Collect(clients[..k], base).value;
      match AddClient(before, base, clients[k])
      case None => true
      case Some(all) =>
        if HandedOut(clients[k]) then
          |all| == |before| + 1 && all[..|before|] == before
          && RecordOf(all[|before|], clients[k], Assigned(clients, base, k))
        else all == before
  {
    hide Collect, NextAddress, TrimSpace;
  }

  lemma MorePeers(clients: seq<Client>, base: Prefix, n: nat, peers: seq<Peer>, at: seq<nat>, p: Peer)
    requires n < |clients| && PeersAt(clients, base, n, peers, at)
    requires HandedOut(clients[n]) && RecordOf(p, clients[n], Assigned(clients, base, n))
    ensures PeersAt(clients, base, n + 1, peers + [p], at + [n])
  {
    hide HandedOut, RecordOf, Assigned;
    var more := at + [n];
    assert forall k: nat :: k in more <==> k in at || k == n;
    assert forall i :: 0 <= i < |at| ==> at[i] in at;
  }

  lemma SamePeers(clients: seq<Client>, base: Prefix, n: nat, peers: seq<Peer>, at: seq<nat>)
    requires n < |clients| && PeersAt(clients, base, n, peers, at) && !HandedOut(clients[n])
    ensures PeersAt(clients, base, n + 1, peers, at)
  {
    hide HandedOut, RecordOf, Assigned;
  }

  // ---- inherited peers ---------------------------------------------------------------------

  /** The peer as it was, but for its keys, which are trimmed. */
  predicate KeptOf(p: Peer, q: Peer) {
    && p.publicKey == TrimSpace(q.publicKey) && p.preshared == TrimSpace(q.preshared)
    && p.email == q.email && p.allowed == q.allowed && p.keepAlive == q.keepAlive
  }

  /** at lists the places of exactly the inherited peers with a visible key, in order. */
  ghost predicate InheritedAt(inherited: seq<Peer>, peers: seq<Peer>, at: seq<nat>) {
    && |at| == |peers|
    && (forall i, j :: 0 <= i < j < |at| ==> at[i] < at[j])
    && (forall k: nat :: k in at <==> k < |inherited| && TrimSpace(inherited[k].publicKey) != "")
    && (forall i :: 0 <= i < |at| ==> at[i] < |inherited| && KeptOf(peers[i], inherited[at[i]]))
  }

  lemma {:induction false} LegacyRecords(inherited: seq<Peer>) returns (at: seq<nat>)
    ensures InheritedAt(inherited, Legacy(inherited), at)
  {
    hide InheritedAt, TrimSpace;
    if inherited == [] {
      at := [];
      NothingInherited();
    } else {
      var n := |inherited| - 1;
      var q := inherited[n];
      at := LegacyRecords(inherited[..n]);
      assert inherited == inherited[..n] + [q];
      MoreInherited(inherited[..n], q, Legacy(inherited[..n]), at);
      if TrimSpace(q.publicKey) != "" {
        at := at + [n];
      } else {
        assert Legacy(inherited[..n]) + [] == Legacy(inherited[..n]);
      }
    }
  }

  lemma NothingInherited()
    ensures InheritedAt([], [], [])
  {
  }

  lemma MoreInherited(inherited: seq<Peer>, q: Peer, peers: seq<Peer>, at: seq<nat>)
    requires InheritedAt(inherited, peers, at)
    ensures TrimSpace(q.publicKey) == "" ==> InheritedAt(inherited + [q], peers, at)
    ensures TrimSpace(q.publicKey) != "" ==>
      InheritedAt(inherited + [q],
        peers + [q.(publicKey := TrimSpace(q.publicKey), preshared := TrimSpace(q.preshared))], at + [|inherited|])
  {
    hide TrimSpace;
    var all, more := inherited + [q], at + [|inherited|];
    assert all[|inherited|] == q && forall k :: 0 <= k < |inherited| ==> all[k] == inherited[k];
    assert forall k: nat :: k in more <==> k in at || k == |inherited|;
    assert forall i :: 0 <= i < |at| ==> at[i] in at;
  }

  /** collectPeers: the handed-out clients' records first, then the inherited peers with a key. */
  method PeersHandedOut(clients: seq<Client>, inherited: seq<Peer>, server: seq<Option<Cidr>>)
    returns (out: Option<seq<Peer>>, ghost own: seq<nat>, ghost kept: seq<nat>)
    ensures out.Some? ==>
      && |out.value| == |own| + |kept|
      && PeersAt(clients, Base(server), |clients|, out.value[..|own|], own)
      && InheritedAt(inherited, out.value[|own|..], kept)
  {
    hide PeersAt, InheritedAt, Collect, Legacy, Base;
    own, kept := [], [];
    out := CollectPeers(clients, inherited, server);
    if out.Some? {
      assert clients[..|clients|] == clients;
      var peers := Collect(clients, Base(server)).value;
      own := CollectedRecords(clients, Base(server), |clients|);
      kept := LegacyRecords(inherited);
      AtSizes(clients, Base(server), peers, own, inherited, Legacy(inherited), kept);
      assert out.value[..|peers|] == peers && out.value[|peers|..] == Legacy(inherited);
    }
  }

  lemma AtSizes(clients: seq<Client>, base: Prefix, peers: seq<Peer>, own: seq<nat>, inherited: seq<Peer>,
                legacy: seq<Peer>, kept: seq<nat>)
    requires PeersAt(clients, base, |clients|, peers, own) && InheritedAt(inherited, legacy, kept)
    ensures |own| == |peers| && |kept| == |legacy|
  {
  }
}
