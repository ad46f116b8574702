/**
 What the allocators of internal/awg/provision.go and internal/awg/manager.go hand out, in numbers:
 the texts of a subnet, the default pool, and the prefix of a server's address.
 */
module AllocatorLaws {
  import opened Prelude
  import opened Text
  import opened Allocators
  import opened PeerAllocation

  // ---- reading a CIDR text -----------------------------------------------------------------

  function Number(octets: seq<int>): int {
    if octets == [] then 0 else Number(octets[..|octets| - 1]) * 256 + octets[|octets| - 1]
  }

  function Octets(parts: seq<string>): Option<seq<int>> {
    if parts == [] then Some([])
    else
      var n := |parts| - 1;
      var o := ParseInt(parts[n]);
      match Octets(parts[..n])
      case None => None
      case Some(os) => if o.ok && 0 <= o.value < 256 then Some(os + [o.value]) else None
  }

  /** a.b.c.d/bits as the number of the address and of the bits. */
  function ReadIPv4(text: string): Option<(int, int)> {
    match Cut(text, '/')
    case None => None
    case Some((addr, bits)) =>
      var os, b := Octets(Split(addr, '.')), ParseInt(bits);
      if os.Some? && |os.value| == 4 && b.ok && 0 <= b.value <= 32 then Some((Number(os.value), b.value)) else None
  }

  lemma NumberNext(os: seq<int>, x: int)
    ensures Number(os + [x]) == Number(os) * 256 + x
  {
    assert (os + [x])[..|os + [x]| - 1] == os;
  }

  lemma OctetsNext(parts: seq<string>, os: seq<int>, p: string, x: int)
    requires Octets(parts) == Some(os) && ParseInt(p) == Parsed(x, true) && 0 <= x < 256
    ensures Octets(parts + [p]) == Some(os + [x])
  {
    hide ParseInt;
    assert (parts + [p])[..|parts + [p]| - 1] == parts;
  }

  lemma FourOctets(a: int, b: int, c: int, d: int)
    ensures Number([a, b, c, d]) == ((a * 256 + b) * 256 + c) * 256 + d
  {
    hide Number;
    NoOctets();
    assert [] + [a] == [a] && [a] + [b] == [a, b] && [a, b] + [c] == [a, b, c] && [a, b, c] + [d] == [a, b, c, d];
    NumberNext([], a);
    NumberNext([a], b);
    NumberNext([a, b], c);
    NumberNext([a, b, c], d);
  }

  lemma NoOctets()
    ensures Number([]) == 0 && Octets([]) == Some([])
  {
  }

  lemma OctetsOf(p: string, q: string, r: string, s: string, a: int, b: int, c: int, d: int)
    requires ParseInt(p) == Parsed(a, true) && ParseInt(q) == Parsed(b, true)
    requires ParseInt(r) == Parsed(c, true) && ParseInt(s) == Parsed(d, true)
    requires 0 <= a < 256 && 0 <= b < 256 && 0 <= c < 256 && 0 <= d < 256
    ensures Octets([p, q, r, s]) == Some([a, b, c, d])
  {
    hide ParseInt, Octets;
    NoOctets();
    assert [] + [p] == [p] && [p] + [q] == [p, q] && [p, q] + [r] == [p, q, r] && [p, q, r] + [s] == [p, q, r, s];
    assert [] + [a] == [a] && [a] + [b] == [a, b] && [a, b] + [c] == [a, b, c] && [a, b, c] + [d] == [a, b, c, d];
    OctetsNext([], [], p, a);
    OctetsNext([p], [a], q, b);
    OctetsNext([p, q], [a, b], r, c);
    OctetsNext([p, q, r], [a, b, c], s, d);
  }

  lemma DotFree(n: nat)
    ensures '.' !in Itoa(n) && '/' !in Itoa(n)
  {
  }

  lemma JoinFour(p: string, q: string, r: string, s: string)
    ensures Join([p, q, r, s], ".") == p + "." + q + "." + r + "." + s
  {
    assert [p, q, r, s][1..] == [q, r, s] && [q, r, s][1..] == [r, s] && [r, s][1..] == [s];
    assert Join([r, s], ".") == r + "." + s;
    assert Join([q, r, s], ".") == q + "." + (r + "." + s);
  }

  lemma ReadFour(a: int, b: int, c: int, d: int, bits: int)
    requires 0 <= a < 256 && 0 <= b < 256 && 0 <= c < 256 && 0 <= d < 256 && 0 <= bits <= 32
    ensures ReadIPv4(Itoa(a) + "." + Itoa(b) + "." + Itoa(c) + "." + Itoa(d) + "/" + Itoa(bits))
      == Some((((a * 256 + b) * 256 + c) * 256 + d, bits))
  {
    hide ParseInt, Itoa, Cut, Split, Join, Octets, Number;
    var p, q, r, s := Itoa(a), Itoa(b), Itoa(c), Itoa(d);
    DotFree(a);
    DotFree(b);
    DotFree(c);
    DotFree(d);
    ParseItoa(a);
    ParseItoa(b);
    ParseItoa(c);
    ParseItoa(d);
    ParseItoa(bits);
    var addr := p + "." + q + "." + r + "." + s;
    assert addr + "/" + Itoa(bits) == addr + ['/'] + Itoa(bits);
    CutAt(addr, '/', Itoa(bits));
    JoinFour(p, q, r, s);
    SplitJoin([p, q, r, s], '.');
    OctetsOf(p, q, r, s, a, b, c, d);
    FourOctets(a, b, c, d);
  }

  // ---- what counts as taken ------------------------------------------------------------------

  /** An address is taken when it is the server's or one of those in use. */
  lemma TakenExactly(server: Option<Addr>, used: seq<Option<Addr>>, a: Addr)
    ensures a in Taken(server, used) <==> server == Some(a) || exists i :: 0 <= i < |used| && used[i] == Some(a)
  {
    if a in Taken(server, used) && server != Some(a) {
      var i :| 0 <= i < |used| && used[i].Some? && used[i].value == a;
      assert used[i] == Some(a);
    }
  }

  /** Of entries with a prefix length, the address alone counts. */
  lemma AddressesExactly(entries: seq<Cidr>, a: Addr)
    ensures a in AddressesOf(entries) <==> exists i :: 0 <= i < |entries| && entries[i].addr == a
  {
  }

  // ---- subnets -------------------------------------------------------------------------------

  lemma Literals()
    ensures Itoa(10) == "10" && Itoa(1) == "1" && Itoa(0) == "0" && Itoa(24) == "24"
  {
  }

  /** A picked subnet reads as 10.second.third.0/24, and its server as the first address of it. */
  lemma SubnetReads(s: Subnet)
    requires s.second < 256 && s.third < 256
    ensures ReadIPv4(BaseText(s)) == Some((10 * 0x100_0000 + s.second * 0x1_0000 + s.third * 0x100, 24))
    ensures ReadIPv4(ServerText(s)) == Some((10 * 0x100_0000 + s.second * 0x1_0000 + s.third * 0x100 + 1, 24))
  {
    hide Itoa, ReadIPv4;
    Literals();
    ReadFour(10, s.second, s.third, 0, 24);
    ReadFour(10, s.second, s.third, 1, 24);
    var q, r := Itoa(s.second), Itoa(s.third);
    assert "10." == "10" + "." && ".0/24" == "." + "0" + "/" + "24" && ".1/24" == "." + "1" + "/" + "24";
    assert BaseText(s) == "10" + "." + q + "." + r + "." + "0" + "/" + "24";
    assert ServerText(s) == "10" + "." + q + "." + r + "." + "1" + "/" + "24";
  }

  /** The subnet picked is inside 10.0.0.0/8, and shares no address with any other subnet that is in use. */
  lemma PickedIsApart(used: set<string>, s: Subnet, c: Subnet)
    requires SubnetPicked(used, s) && BaseText(c) in used && c.second < 256 && c.third < 256
    requires exists x :: Tried(x) && BaseText(x) !in used
    ensures s.second < 256 && s.third < 256 && (s.second != c.second || s.third != c.third)
    ensures ReadIPv4(BaseText(s)).Some? && ReadIPv4(BaseText(c)).Some?
    ensures var (a, b) := (ReadIPv4(BaseText(s)).value.0, ReadIPv4(BaseText(c)).value.0); a + 256 <= b || b + 256 <= a
  {
    hide BaseText, ReadIPv4;
    SubnetReads(c);
    SubnetReads(s);
  }

  /** With nothing in use it is 10.66.66.0/24. */
  lemma FirstSubnet(s: Subnet)
    requires SubnetPicked({}, s)
    ensures ReadIPv4(BaseText(s)) == Some((0x0A42_4200, 24)) && ReadIPv4(ServerText(s)) == Some((0x0A42_4201, 24))
    ensures Masked(Cidr(Addr(false, 0x0A42_4201), 24)) == DefaultPool
  {
    hide BaseText, ReadIPv4, ServerText;
    SubnetReads(s);
    SizeIs(24);
  }

  /** The search covers 10.66.66.0 to 10.255.255.0, from the lowest address up. */
  lemma TriedExactly(c: Subnet, s: Subnet)
    requires c.second < 256 && c.third < 256 && s.second < 256 && s.third < 256
    ensures ReadIPv4(BaseText(c)).Some? && ReadIPv4(BaseText(s)).Some?
    ensures var (a, b) := (ReadIPv4(BaseText(c)).value.0, ReadIPv4(BaseText(s)).value.0);
      (Tried(c) <==> 0x0A42_4200 <= a) && (Earlier(c, s) <==> a < b)
  {
    hide BaseText, ReadIPv4;
    SubnetReads(c);
    SubnetReads(s);
  }

  /** Ports are picked from 10000 to 65535, neither blocked nor in use. */
  lemma PortsPicked(blocked: set<int>, attempts: seq<nat>, free: set<int>, port: int)
    requires PortPicked(blocked, attempts, free, Some(port))
    requires forall i :: 0 <= i < |attempts| ==> attempts[i] < 65535 - 10000 + 1
    ensures 10000 <= port <= 65535 && port !in blocked && port in free
  {
  }

  /** Names are awg0, awg1 and so on; awg_panel when the ten thousand of them are used. */
  lemma NamesPicked(used: set<string>, name: string)
    requires NamePicked(used, name)
    ensures "awg0" !in used ==> name == "awg0"
    ensures "awg0" in used && "awg1" !in used ==> name == "awg1"
    ensures (forall n: nat :: n < 10_000 ==> "awg" + Itoa(n) in used) ==> name == "awg_panel"
    ensures (exists n: nat :: n < 10_000 && "awg" + Itoa(n) !in used) ==> name !in used
  {
    hide Itoa;
    SmallNumbers();
    assert InterfaceCandidate(0) == "awg0" && InterfaceCandidate(1) == "awg1";
    forall n: nat
      ensures InterfaceCandidate(n) == "awg" + Itoa(n)
    {
    }
  }

  lemma SmallNumbers()
    ensures "awg" + Itoa(0) == "awg0" && "awg" + Itoa(1) == "awg1"
  {
  }

  // ---- prefixes --------------------------------------------------------------------------------

  function Power(bits: nat): nat {
    if bits == 0 then 1 else 2 * Power(bits - 1)
  }

  lemma {:induction false} SizeIs(bits: nat)
    requires bits <= 32
    ensures Size(bits) == Power(32 - bits)
    ensures bits == 24 ==> Size(bits) == 256
    decreases 32 - bits
  {
    if bits < 32 {
      SizeIs(bits + 1);
      if bits == 24 {
        assert Size(25) == 2 * Size(26) == 4 * Size(27) == 8 * Size(28) == 16 * Size(29) == 32 * Size(30);
        assert Size(30) == 2 * Size(31) == 4 * Size(32);
      }
    }
  }

  /** A masked prefix: the 2^(32-bits) addresses from a multiple of that number on, the given one among them. */
  lemma MaskedExactly(c: Cidr)
    requires c.bits <= 32
    ensures var p, size := Masked(c), Power(32 - c.bits);
      && p.v6 == c.addr.v6 && p.size == size && size > 0
      && p.network == c.addr.n / size * size && p.network <= c.addr.n < p.network + size
  {
    hide Size;
    SizeIs(c.bits);
    RoundDown(c.addr.n, Size(c.bits));
  }
}
