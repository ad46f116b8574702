/**
 Provisioning an AmneziaWG inbound (BuildProvisionPlan, internal/awg/provision.go) and the normalizing
 pass that uses it (internal/awg/normalize.go): exactly when one pass leaves nothing for a later one.
 */
module Provision {
  import opened Prelude
  import opened Text
  import opened Allocators
  import opened Obfuscation
  import opened Normalize
  import ShareBytes

  datatype Snapshot = Snapshot(names: set<string>, ports: set<int>, subnets: set<string>)

  datatype KeyPair = KeyPair(private: seq<ShareBytes.Byte>, public: seq<ShareBytes.Byte>)

  /** What the host and the random source answer during one pass; no key pair when the source fails. */
  datatype World = World(
    taken: Snapshot, attempts: seq<nat>, free: set<int>, keys: Option<KeyPair>, draws: Draws, fallback: Draws)

  const PortAttempts := 256

  /** Draws are in range, and drawing goes on until a round is accepted. */
  predicate ValidDraws(d: Draws) { InRange(d) && Generated(d).Some? }

  predicate ValidWorld(w: World) {
    && |w.attempts| == PortAttempts && (forall i :: 0 <= i < |w.attempts| ==> w.attempts[i] < MaxPort - MinPort + 1)
    && (w.keys.Some? ==> |w.keys.value.private| == |w.keys.value.public| == 32)
    && ValidDraws(w.draws) && ValidDraws(w.fallback)
  }

  /** The parameters generated when there is no plan. */
  function Fallback(w: World): Params
    requires ValidWorld(w)
  {
    Generated(w.fallback).value
  }

  /** A port can be had, and a key pair. */
  ghost predicate PlanAvailable(w: World) {
    w.keys.Some? && exists p :: MinPort <= p <= MaxPort && Usable(p, w.taken.ports, w.free)
  }

  /** What BuildProvisionPlan returns. */
  ghost predicate PlanBuilt(w: World, plan: Option<Plan>)
    requires ValidWorld(w)
  {
    match plan
    case None => !PlanAvailable(w)
    case Some(p) =>
      && w.keys.Some?
      && PortPicked(w.taken.ports, w.attempts, w.free, Some(p.listenPort))
      && NamePicked(w.taken.names, p.interfaceName)
      && (exists s ::
            SubnetPicked(w.taken.subnets, s) && p.serverAddress == ServerText(s) && p.subnetPool == BaseText(s))
      && p.privateKey == ShareBytes.Btoa(w.keys.value.private) && p.publicKey == ShareBytes.Btoa(w.keys.value.public)
      && p.mtu == 1420 && p.dns == DefaultDns && Generated(w.draws) == Some(p.obf)
  }

  lemma PortInRange(blocked: set<int>, attempts: seq<nat>, free: set<int>, port: int)
    requires PortPicked(blocked, attempts, free, Some(port))
    requires forall i :: 0 <= i < |attempts| ==> attempts[i] < MaxPort - MinPort + 1
    ensures MinPort <= port <= MaxPort && Usable(port, blocked, free)
  {
  }

  lemma KeyIsVisible(key: seq<ShareBytes.Byte>)
    requires |key| == 32
    ensures !Unset(ShareBytes.Btoa(key))
  {
    hide TrimSpace;
    var text := ShareBytes.Btoa(key);
    assert text[0] == ShareBytes.Body(key)[0] && ShareBytes.IsSymbol(text[0]);
    VisibleStart(text);
  }

  /** Every plan that is built fills every blank. */
  lemma PlanIsGood(w: World, p: Plan)
    requires ValidWorld(w) && PlanBuilt(w, Some(p))
    ensures GoodPlan(p) && PlanAvailable(w)
  {
    hide TrimSpace, NeedsProvision, Valid, ParamsOf, NamePicked, SubnetPicked, PortPicked, Accepted, PaddingsInRange;
    PortInRange(w.taken.ports, w.attempts, w.free, p.listenPort);
    NameIsVisible(w.taken.names, p.interfaceName);
    var s :| SubnetPicked(w.taken.subnets, s) && p.serverAddress == ServerText(s) && p.subnetPool == BaseText(s);
    ServerIsVisible(s);
    KeyIsVisible(w.keys.value.private);
    DefaultDnsIsVisible();
    GeneratedIsGood(w.draws);
  }

  lemma FallbackIsGood(w: World)
    requires ValidWorld(w)
    ensures !NeedsProvision(Fallback(w))
  {
    hide NeedsProvision, Generated;
    GeneratedIsGood(w.fallback);
  }

  lemma GeneratedIsGood(d: Draws)
    requires ValidDraws(d)
    ensures !NeedsProvision(Generated(d).value)
  {
    hide NeedsProvision, Valid, ParamsOf;
    ParamsAreValid(d, d.rounds[FirstAccepted(d.rounds)]);
  }

  method BuildProvisionPlan(w: World) returns (plan: Option<Plan>)
    requires ValidWorld(w)
    ensures PlanBuilt(w, plan)
    ensures plan.Some? ==> GoodPlan(plan.value)
  {
    hide GoodPlan, NamePicked, SubnetPicked, ParamsOf, NeedsProvision, Valid, TrimSpace;
    var port := PickListenPort(w.taken.ports, w.attempts, w.free);
    if port.None? {
      return None;
    }
    var iface := PickInterfaceName(w.taken.names);
    var subnet := PickSubnet(w.taken.subnets);
    if w.keys.None? {
      return None;
    }
    var obf := GenerateObfuscationParams(w.draws);
    plan := Some(Plan(
      DefaultDns, 1420, ServerText(subnet), BaseText(subnet), iface, port.value,
      ShareBytes.Btoa(w.keys.value.private), ShareBytes.Btoa(w.keys.value.public), obf.value));
    PlanIsGood(w, plan.value);
  }

  // ---- one pass ----------------------------------------------------------------------------------

  /** What one normalizing pass makes of the settings and the port. */
  ghost predicate Pass(s: Settings, port: int, w: World, r: Settings, q: int)
    requires ValidWorld(w)
  {
    exists plan :: PlanBuilt(w, plan)
      && r == Normalized(s, plan, Fallback(w)) && q == NormalizedPort(port, plan)
  }

  method NormalizeSettings(s: Settings, port: int, w: World) returns (r: Settings, q: int)
    requires ValidWorld(w)
    ensures Pass(s, port, w, r, q)
  {
    hide PlanBuilt, Normalized, GoodPlan, NeedsProvision, Valid, ParamsOf;
    var plan := BuildProvisionPlan(w);
    var generated := GenerateObfuscationParams(w.fallback);
    r, q := NormalizeInboundSettings(s, port, plan, generated.value);
  }

  /** The settings a plan is needed for were there. */
  predicate Complete(s: Settings, port: int) {
    && !Unset(TextAt(s.text, Address)) && !Unset(TextAt(s.text, AwgInterface)) && !Unset(TextAt(s.text, SecretKey))
    && port > 0
  }

  /** After a pass that had a plan, or did not need one, everything is filled. */
  lemma PassFills(s: Settings, port: int, w: World, r: Settings, q: int)
    requires ValidWorld(w) && Pass(s, port, w, r, q)
    ensures Filled(r) && q > 0 <==> PlanAvailable(w) || Complete(s, port)
    ensures !(PlanAvailable(w) || Complete(s, port)) ==> !Complete(r, q)
  {
    hide PlanBuilt, Normalized, GoodPlan, NeedsProvision, Fallback, Unset, PlanAvailable, ValidWorld, ObfuscationOf;
    var plan :| PlanBuilt(w, plan)
      && r == Normalized(s, plan, Fallback(w)) && q == NormalizedPort(port, plan);
    WhichPlan(w, plan);
    FallbackIsGood(w);
    NormalizedFields(s, plan, Fallback(w));
    if plan.Some? {
      GoodPlanHasPort(plan.value);
    }
  }

  lemma WhichPlan(w: World, plan: Option<Plan>)
    requires ValidWorld(w) && PlanBuilt(w, plan)
    ensures plan.Some? <==> PlanAvailable(w)
    ensures plan.Some? ==> GoodPlan(plan.value)
  {
    hide GoodPlan, ValidDraws;
    if plan.Some? {
      PlanIsGood(w, plan.value);
    }
  }

  lemma GoodPlanHasPort(p: Plan)
    requires GoodPlan(p)
    ensures p.listenPort > 0
  {
  }

  lemma FilledPassStays(s: Settings, port: int, w: World, r: Settings, q: int)
    requires ValidWorld(w) && Filled(s) && port > 0 && Pass(s, port, w, r, q)
    ensures r == s && q == port
  {
    hide PlanBuilt, Normalized, Filled, ValidWorld, Fallback;
    var plan :| PlanBuilt(w, plan)
      && r == Normalized(s, plan, Fallback(w)) && q == NormalizedPort(port, plan);
    FilledStays(s, plan, Fallback(w));
  }

  // ---- a pass that has a plan ------------------------------------------------------------------

  const SomeDraws := Draws(0, 0, 0, [Paddings(0, 1, 2, 0)],
    HeaderDraws(0, [0, 0, 0, 0], [0, 0, 0, 0], [0, 0, 0, 0], [0, 0, 0, 0]), 0, 0, 0, 0, 0)

  lemma SomeDrawsAreValid()
    ensures ValidDraws(SomeDraws)
  {
    hide ParamsOf;
    var r := SomeDraws.rounds[0];
    assert [15 + r.s1, 15 + r.s2, 10 + r.s3, 1 + r.s4] == [15, 16, 12, 1];
    assert Accepted(r);
  }

  function ZeroKeys(): KeyPair {
    KeyPair(seq(32, i => 0), seq(32, i => 0))
  }

  /** A host on which everything is free. */
  function EmptyHost(): World {
    World(Snapshot({}, {}, {}), seq(PortAttempts, i => 0), {MinPort}, Some(ZeroKeys()), SomeDraws, SomeDraws)
  }

  lemma EmptyHostHasPlan() returns (plan: Plan)
    ensures ValidWorld(EmptyHost()) && PlanBuilt(EmptyHost(), Some(plan))
  {
    hide ParamsOf, InterfaceCandidate, BaseText, ServerText, InRange;
    SomeDrawsAreValid();
    var w := EmptyHost();
    plan := Plan(DefaultDns, 1420, ServerText(Subnet(66, 66)), BaseText(Subnet(66, 66)), InterfaceCandidate(0), MinPort,
                 ShareBytes.Btoa(w.keys.value.private), ShareBytes.Btoa(w.keys.value.public),
                 Generated(SomeDraws).value);
    assert NamePicked({}, InterfaceCandidate(0));
    assert SubnetPicked({}, Subnet(66, 66));
    assert Usable(MinPort + w.attempts[0], {}, {MinPort});
  }

  lemma PassWith(s: Settings, port: int, w: World, plan: Option<Plan>) returns (r: Settings, q: int)
    requires ValidWorld(w) && PlanBuilt(w, plan)
    ensures Pass(s, port, w, r, q)
  {
    hide PlanBuilt, Normalized, NormalizedPort, ValidWorld, Fallback;
    r, q := Normalized(s, plan, Fallback(w)), NormalizedPort(port, plan);
  }

  /** A pass that has a plan changes settings a plan is needed for. */
  lemma PlanChangesIncomplete(s: Settings, port: int) returns (w: World, r: Settings, q: int)
    requires !Complete(s, port)
    ensures ValidWorld(w) && Pass(s, port, w, r, q) && (r != s || q != port)
  {
    hide PlanBuilt, Pass, ValidWorld, Filled, Complete, EmptyHost, PlanAvailable;
    var plan := EmptyHostHasPlan();
    w := EmptyHost();
    PlanIsGood(w, plan);
    r, q := PassWith(s, port, w, Some(plan));
    PassFills(s, port, w, r, q);
    FilledIsComplete(r, q);
  }

  lemma FilledIsComplete(s: Settings, port: int)
    requires Filled(s) && port > 0
    ensures Complete(s, port)
  {
  }

  /**
   One normalizing pass is enough, whatever any later pass finds on the host, exactly when it had a
   plan, or address, interface, key and port were there already.
   */
  lemma PassTwiceExactly(s: Settings, port: int, w: World, r: Settings, q: int)
    requires ValidWorld(w) && Pass(s, port, w, r, q)
    ensures (forall v, t, o :: ValidWorld(v) && Pass(r, q, v, t, o) ==> t == r && o == q)
      <==> PlanAvailable(w) || Complete(s, port)
  {
    hide Pass, ValidWorld, PlanAvailable, Complete, Filled;
    PassFills(s, port, w, r, q);
    if PlanAvailable(w) || Complete(s, port) {
      forall v, t, o | ValidWorld(v) && Pass(r, q, v, t, o)
        ensures t == r && o == q
      {
        FilledPassStays(r, q, v, t, o);
      }
    } else {
      var v, t, o := PlanChangesIncomplete(r, q);
    }
  }
}
