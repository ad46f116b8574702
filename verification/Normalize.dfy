/**
 NormalizeInboundSettings (internal/awg/normalize.go): blanks are filled from a provision plan or
 from defaults.  Once everything is filled, normalizing again changes nothing.
 */
module Normalize {
  import opened Prelude
  import opened Text
  import opened Obfuscation

  datatype TextKey = Dns | Address | AwgInterface | SecretKey | H1 | H2 | H3 | H4 | I1 | I2 | I3 | I4 | I5

  datatype NumKey = Mtu | Jc | Jmin | Jmax | S1 | S2 | S3 | S4

  /** A settings object by the type of its keys; any other key rides along in rest. */
  datatype Settings = Settings(text: map<TextKey, string>, num: map<NumKey, int>, rest: map<string, string>)

  function TextAt(m: map<TextKey, string>, k: TextKey): string {
    if k in m then m[k] else ""
  }

  function NumAt(m: map<NumKey, int>, k: NumKey): int {
    if k in m then m[k] else 0
  }

  function ObfuscationOf(s: Settings): Params {
    Params(NumAt(s.num, Jc), NumAt(s.num, Jmin), NumAt(s.num, Jmax),
           NumAt(s.num, S1), NumAt(s.num, S2), NumAt(s.num, S3), NumAt(s.num, S4),
           TextAt(s.text, H1), TextAt(s.text, H2), TextAt(s.text, H3), TextAt(s.text, H4),
           TextAt(s.text, I1), TextAt(s.text, I2), TextAt(s.text, I3), TextAt(s.text, I4), TextAt(s.text, I5))
  }

  datatype Plan = Plan(
    dns: string, mtu: int, serverAddress: string, subnetPool: string, interfaceName: string, listenPort: int,
    privateKey: string, publicKey: string, obf: Params)

  const DefaultDns := "1.1.1.1,2606:4700:4700::1111"

  // ---- what one pass writes --------------------------------------------------------

  function ParamText(p: Params, k: TextKey): Option<string> {
    match k
    case H1 => Some(p.h1) case H2 => Some(p.h2) case H3 => Some(p.h3) case H4 => Some(p.h4)
    case I1 => Some(p.i1) case I2 => Some(p.i2) case I3 => Some(p.i3) case I4 => Some(p.i4) case I5 => Some(p.i5)
    case _ => None
  }

  function ParamNum(p: Params, k: NumKey): Option<int> {
    match k
    case Jc => Some(p.jc) case Jmin => Some(p.jmin) case Jmax => Some(p.jmax)
    case S1 => Some(p.s1) case S2 => Some(p.s2) case S3 => Some(p.s3) case S4 => Some(p.s4)
    case Mtu => None
  }

  /** What a plan has for a key that is not a parameter. */
  function PlanText(plan: Option<Plan>, k: TextKey): Option<string> {
    match k
    case Dns => Some(if plan.Some? then plan.value.dns else DefaultDns)
    case Address => if plan.Some? then Some(plan.value.serverAddress) else None
    case AwgInterface => if plan.Some? then Some(plan.value.interfaceName) else None
    case SecretKey => if plan.Some? then Some(plan.value.privateKey) else None
    case _ => None
  }

  function Source(plan: Option<Plan>, generated: Params): Params {
    if plan.Some? then plan.value.obf else generated
  }

  function Held<K(==), V>(m: map<K, V>, k: K): Option<V> {
    if k in m then Some(m[k]) else None
  }

  /** What is written under a text key, if anything. */
  function WrittenText(s: Settings, plan: Option<Plan>, generated: Params, k: TextKey): Option<string> {
    if ParamText(generated, k).Some? then
      if NeedsProvision(ObfuscationOf(s)) then ParamText(Source(plan, generated), k) else None
    else if Unset(TextAt(s.text, k)) then PlanText(plan, k)
    else None
  }

  function WrittenNum(s: Settings, plan: Option<Plan>, generated: Params, k: NumKey): Option<int> {
    if k.Mtu? then
      if NumAt(s.num, Mtu) <= 0 then Some(if plan.Some? then plan.value.mtu else 1420) else None
    else if NeedsProvision(ObfuscationOf(s)) then ParamNum(Source(plan, generated), k)
    else None
  }

  const TextKeys := {Dns, Address, AwgInterface, SecretKey, H1, H2, H3, H4, I1, I2, I3, I4, I5}
  const NumKeys := {Mtu, Jc, Jmin, Jmax, S1, S2, S3, S4}

  /** Every decision is taken on the settings as they came in. */
  function Normalized(s: Settings, plan: Option<Plan>, generated: Params): Settings {
    Settings(
      map k | k in TextKeys && (k in s.text || WrittenText(s, plan, generated, k).Some?)
        :: if WrittenText(s, plan, generated, k).Some? then WrittenText(s, plan, generated, k).value else s.text[k],
      map k | k in NumKeys && (k in s.num || WrittenNum(s, plan, generated, k).Some?)
        :: if WrittenNum(s, plan, generated, k).Some? then WrittenNum(s, plan, generated, k).value else s.num[k],
      s.rest)
  }

  function NormalizedPort(port: int, plan: Option<Plan>): int {
    if port <= 0 && plan.Some? then plan.value.listenPort else port
  }

  lemma AllKeys(t: TextKey, n: NumKey)
    ensures t in TextKeys && n in NumKeys
  {
  }

  function Or<T>(a: Option<T>, b: Option<T>): Option<T> {
    if a.Some? then a else b
  }

  lemma TextHas(s: Settings, plan: Option<Plan>, generated: Params, t: TextKey)
    ensures Held(Normalized(s, plan, generated).text, t) == Or(WrittenText(s, plan, generated, t), Held(s.text, t))
  {
    hide WrittenText, WrittenNum, TextKeys, NumKeys;
    AllKeys(t, Mtu);
  }

  lemma NumHas(s: Settings, plan: Option<Plan>, generated: Params, n: NumKey)
    ensures Held(Normalized(s, plan, generated).num, n) == Or(WrittenNum(s, plan, generated, n), Held(s.num, n))
  {
    hide WrittenText, WrittenNum, TextKeys, NumKeys;
    AllKeys(Dns, n);
  }

  lemma SameMap<K, V>(a: map<K, V>, b: map<K, V>)
    requires forall k :: Held(a, k) == Held(b, k)
    ensures a == b
  {
    forall k
      ensures (k in a <==> k in b) && (k in a ==> a[k] == b[k])
    {
      assert Held(a, k) == Held(b, k);
    }
  }

  /** applyObfuscation writes its sixteen keys and no other. */
  method ApplyObfuscation(s: Settings, p: Params) returns (r: Settings)
    ensures forall k :: Held(r.text, k) == Or(ParamText(p, k), Held(s.text, k))
    ensures forall k :: Held(r.num, k) == Or(ParamNum(p, k), Held(s.num, k))
    ensures r.rest == s.rest
  {
    var num := s.num;
    num := num[Jc := p.jc];
    num := num[Jmin := p.jmin];
    num := num[Jmax := p.jmax];
    num := num[S1 := p.s1];
    num := num[S2 := p.s2];
    num := num[S3 := p.s3];
    num := num[S4 := p.s4];
    var text := s.text;
    text := text[H1 := p.h1];
    text := text[H2 := p.h2];
    text := text[H3 := p.h3];
    text := text[H4 := p.h4];
    text := text[I1 := p.i1];
    text := text[I2 := p.i2];
    text := text[I3 := p.i3];
    text := text[I4 := p.i4];
    text := text[I5 := p.i5];
    return Settings(text, num, s.rest);
  }

  /** The keys other than the parameters. */
  method FillPlainKeys(s: Settings, plan: Option<Plan>) returns (r: Settings)
    ensures forall k ::
      Held(r.text, k) == Or(if Unset(TextAt(s.text, k)) then PlanText(plan, k) else None, Held(s.text, k))
    ensures forall k :: k != Mtu ==> Held(r.num, k) == Held(s.num, k)
    ensures Held(r.num, Mtu)
      == if NumAt(s.num, Mtu) <= 0 then Some(if plan.Some? then plan.value.mtu else 1420) else Held(s.num, Mtu)
    ensures r.rest == s.rest
  {
    hide Unset, Held, TextAt, PlanText;
    PlanTextIs(plan);
    var text, num := s.text, s.num;
    var usePlan := plan.Some?;
    text := FillText(text, s.text, Dns, Some(if usePlan then plan.value.dns else DefaultDns));
    if NumAt(s.num, Mtu) <= 0 {
      num := num[Mtu := if usePlan then plan.value.mtu else 1420];
    }
    HeldAfter(s.num, Mtu, if usePlan then plan.value.mtu else 1420);
    text := FillText(text, s.text, Address, if usePlan then Some(plan.value.serverAddress) else None);
    text := FillText(text, s.text, AwgInterface, if usePlan then Some(plan.value.interfaceName) else None);
    text := FillText(text, s.text, SecretKey, if usePlan then Some(plan.value.privateKey) else None);
    return Settings(text, num, s.rest);
  }

  /** A key that was blank in the settings as they came in is filled when there is something to fill it with. */
  method FillText(m: map<TextKey, string>, original: map<TextKey, string>, k: TextKey, filling: Option<string>)
    returns (r: map<TextKey, string>)
    ensures forall x ::
      Held(r, x) == if x == k && Unset(TextAt(original, k)) && filling.Some? then filling else Held(m, x)
  {
    hide Unset;
    r := m;
    if Unset(TextAt(original, k)) && filling.Some? {
      r := r[k := filling.value];
    }
  }

  lemma HeldAfter(m: map<NumKey, int>, k: NumKey, v: int)
    ensures Held(m[k := v], k) == Some(v)
    ensures forall x :: x != k ==> Held(m[k := v], x) == Held(m, x)
  {
    var r := m[k := v];
    assert k in r && r[k] == v;
  }

  lemma PlanTextIs(plan: Option<Plan>)
    ensures PlanText(plan, Dns) == Some(if plan.Some? then plan.value.dns else DefaultDns)
    ensures PlanText(plan, Address) == if plan.Some? then Some(plan.value.serverAddress) else None
    ensures PlanText(plan, AwgInterface) == if plan.Some? then Some(plan.value.interfaceName) else None
    ensures PlanText(plan, SecretKey) == if plan.Some? then Some(plan.value.privateKey) else None
    ensures forall k: TextKey :: !k.Dns? && !k.Address? && !k.AwgInterface? && !k.SecretKey? ==> PlanText(plan, k).None?
  {
  }

  method NormalizeInboundSettings(s: Settings, inboundPort: int, plan: Option<Plan>, generated: Params)
    returns (out: Settings, port: int)
    ensures out == Normalized(s, plan, generated) && port == NormalizedPort(inboundPort, plan)
  {
    hide NeedsProvision, Unset, Normalized, ObfuscationOf, Held, ParamText, ParamNum, PlanText;
    out := FillPlainKeys(s, plan);
    port := inboundPort;
    if port <= 0 && plan.Some? {
      port := plan.value.listenPort;
    }
    if NeedsProvision(ObfuscationOf(s)) {
      out := ApplyObfuscation(out, if plan.Some? then plan.value.obf else generated);
    }
    forall t
      ensures Held(out.text, t) == Held(Normalized(s, plan, generated).text, t)
    {
      TextHas(s, plan, generated, t);
      SameKeys(generated, Source(plan, generated), t, Mtu);
      PlanHasNoParams(plan, generated, t);
    }
    forall n
      ensures Held(out.num, n) == Held(Normalized(s, plan, generated).num, n)
    {
      NumHas(s, plan, generated, n);
      SameKeys(generated, Source(plan, generated), Dns, n);
    }
    SameMap(out.text, Normalized(s, plan, generated).text);
    SameMap(out.num, Normalized(s, plan, generated).num);
    RestStays(s, plan, generated);
  }

  lemma PlanHasNoParams(plan: Option<Plan>, p: Params, k: TextKey)
    ensures ParamText(p, k).Some? ==> PlanText(plan, k).None?
  {
  }

  lemma RestStays(s: Settings, plan: Option<Plan>, generated: Params)
    ensures Normalized(s, plan, generated).rest == s.rest
  {
  }

  // ---- normalizing twice ------------------------------------------------------------------

  /** What BuildProvisionPlan hands out. */
  predicate GoodPlan(p: Plan) {
    && !Unset(p.dns) && p.mtu > 0 && !Unset(p.serverAddress) && !Unset(p.interfaceName)
    && p.listenPort > 0 && !Unset(p.privateKey) && !NeedsProvision(p.obf)
  }

  /** Nothing is left to fill, with or without a plan. */
  predicate Filled(s: Settings) {
    && !Unset(TextAt(s.text, Dns)) && NumAt(s.num, Mtu) > 0
    && !Unset(TextAt(s.text, Address)) && !Unset(TextAt(s.text, AwgInterface)) && !Unset(TextAt(s.text, SecretKey))
    && !NeedsProvision(ObfuscationOf(s))
  }

  lemma FilledStays(s: Settings, plan: Option<Plan>, generated: Params)
    requires Filled(s)
    ensures Normalized(s, plan, generated) == s
  {
    hide NeedsProvision, Unset, Normalized, ObfuscationOf;
    forall t
      ensures Held(Normalized(s, plan, generated).text, t) == Held(s.text, t)
    {
      TextHas(s, plan, generated, t);
    }
    forall n
      ensures Held(Normalized(s, plan, generated).num, n) == Held(s.num, n)
    {
      NumHas(s, plan, generated, n);
    }
    SameMap(Normalized(s, plan, generated).text, s.text);
    SameMap(Normalized(s, plan, generated).num, s.num);
    RestStays(s, plan, generated);
  }

  lemma TextFrom(m: map<TextKey, string>, k: TextKey)
    ensures TextAt(m, k) == if Held(m, k).Some? then Held(m, k).value else ""
  {
  }

  lemma NumFrom(m: map<NumKey, int>, k: NumKey)
    ensures NumAt(m, k) == if Held(m, k).Some? then Held(m, k).value else 0
  {
  }

  /** Reading the parameters and asking for one is reading its key. */
  lemma ReadText(s: Settings, any: Params, k: TextKey)
    ensures ParamText(ObfuscationOf(s), k) == if ParamText(any, k).Some? then Some(TextAt(s.text, k)) else None
  {
    hide TextAt, NumAt;
  }

  lemma ReadNum(s: Settings, any: Params, k: NumKey)
    ensures ParamNum(ObfuscationOf(s), k) == if ParamNum(any, k).Some? then Some(NumAt(s.num, k)) else None
  {
    hide TextAt, NumAt;
  }

  lemma SameNumbers(p: Params, q: Params)
    requires forall k :: ParamNum(p, k) == ParamNum(q, k)
    ensures p.jc == q.jc && p.jmin == q.jmin && p.jmax == q.jmax
    ensures p.s1 == q.s1 && p.s2 == q.s2 && p.s3 == q.s3 && p.s4 == q.s4
  {
    assert ParamNum(p, Jc) == ParamNum(q, Jc) && ParamNum(p, Jmin) == ParamNum(q, Jmin)
      && ParamNum(p, Jmax) == ParamNum(q, Jmax);
    assert ParamNum(p, S1) == ParamNum(q, S1) && ParamNum(p, S2) == ParamNum(q, S2);
    assert ParamNum(p, S3) == ParamNum(q, S3) && ParamNum(p, S4) == ParamNum(q, S4);
  }

  lemma SameHeaders(p: Params, q: Params)
    requires forall k :: ParamText(p, k) == ParamText(q, k)
    ensures p.h1 == q.h1 && p.h2 == q.h2 && p.h3 == q.h3 && p.h4 == q.h4
  {
    assert ParamText(p, H1) == ParamText(q, H1) && ParamText(p, H2) == ParamText(q, H2);
    assert ParamText(p, H3) == ParamText(q, H3) && ParamText(p, H4) == ParamText(q, H4);
  }

  lemma SameChains(p: Params, q: Params)
    requires forall k :: ParamText(p, k) == ParamText(q, k)
    ensures p.i1 == q.i1 && p.i2 == q.i2 && p.i3 == q.i3 && p.i4 == q.i4 && p.i5 == q.i5
  {
    assert ParamText(p, I1) == ParamText(q, I1) && ParamText(p, I2) == ParamText(q, I2)
      && ParamText(p, I3) == ParamText(q, I3);
    assert ParamText(p, I4) == ParamText(q, I4) && ParamText(p, I5) == ParamText(q, I5);
  }

  lemma SameParams(p: Params, q: Params)
    requires forall k :: ParamText(p, k) == ParamText(q, k)
    requires forall k :: ParamNum(p, k) == ParamNum(q, k)
    ensures p == q
  {
    hide ParamText, ParamNum;
    SameNumbers(p, q);
    SameHeaders(p, q);
    SameChains(p, q);
  }

  lemma SameKeys(p: Params, q: Params, t: TextKey, n: NumKey)
    ensures ParamText(p, t).Some? <==> ParamText(q, t).Some?
    ensures ParamNum(p, n).Some? <==> ParamNum(q, n).Some?
    ensures ParamNum(p, n).Some? <==> !n.Mtu?
  {
  }

  /** One pass leaves the parameters as they were, or as provisioned. */
  lemma NormalizedObfuscation(s: Settings, plan: Option<Plan>, generated: Params)
    ensures ObfuscationOf(Normalized(s, plan, generated))
      == if NeedsProvision(ObfuscationOf(s)) then Source(plan, generated) else ObfuscationOf(s)
  {
    hide NeedsProvision, Unset, Normalized, ObfuscationOf, Held, ParamText, ParamNum, Source;
    var r, p := Normalized(s, plan, generated), Source(plan, generated);
    var q := if NeedsProvision(ObfuscationOf(s)) then p else ObfuscationOf(s);
    forall k
      ensures ParamText(ObfuscationOf(r), k) == ParamText(q, k)
    {
      TextHas(s, plan, generated, k);
      TextFrom(r.text, k);
      TextFrom(s.text, k);
      ReadText(r, p, k);
      ReadText(s, p, k);
      SameKeys(generated, p, k, Mtu);
    }
    forall k
      ensures ParamNum(ObfuscationOf(r), k) == ParamNum(q, k)
    {
      NumHas(s, plan, generated, k);
      NumFrom(r.num, k);
      NumFrom(s.num, k);
      ReadNum(r, p, k);
      ReadNum(s, p, k);
      SameKeys(generated, p, Dns, k);
    }
    SameParams(ObfuscationOf(r), q);
  }

  lemma DefaultDnsIsVisible()
    ensures !Unset(DefaultDns)
  {
    hide IsSpace, TrimSpace;
    assert DefaultDns[0] == '1' && DefaultDns[|DefaultDns| - 1] == '1';
    OneIsVisible();
    TightTrims(DefaultDns);
  }

  lemma OneIsVisible()
    ensures !IsSpace('1')
  {
  }

  /** What one pass leaves filled, key by key. */
  lemma NormalizedFields(s: Settings, plan: Option<Plan>, generated: Params)
    requires (plan.Some? ==> GoodPlan(plan.value)) && !NeedsProvision(generated)
    ensures var r := Normalized(s, plan, generated);
      && !Unset(TextAt(r.text, Dns)) && NumAt(r.num, Mtu) > 0 && !NeedsProvision(ObfuscationOf(r))
      && (Unset(TextAt(r.text, Address)) <==> Unset(TextAt(s.text, Address)) && plan.None?)
      && (Unset(TextAt(r.text, AwgInterface)) <==> Unset(TextAt(s.text, AwgInterface)) && plan.None?)
      && (Unset(TextAt(r.text, SecretKey)) <==> Unset(TextAt(s.text, SecretKey)) && plan.None?)
  {
    hide NeedsProvision, Unset, Normalized, ObfuscationOf;
    DefaultDnsIsVisible();
    NormalizedObfuscation(s, plan, generated);
    TextHas(s, plan, generated, Dns);
    NumHas(s, plan, generated, Mtu);
    TextHas(s, plan, generated, Address);
    TextHas(s, plan, generated, AwgInterface);
    TextHas(s, plan, generated, SecretKey);
  }

  /** With a plan, one pass is enough: no later pass, with any plan or none, changes anything. */
  lemma NormalizeTwice(s: Settings, plan: Plan, generated: Params, later: Option<Plan>, generated2: Params, port: int)
    requires GoodPlan(plan) && !NeedsProvision(generated)
    ensures var r := Normalized(s, Some(plan), generated); Normalized(r, later, generated2) == r
    ensures NormalizedPort(NormalizedPort(port, Some(plan)), later) == NormalizedPort(port, Some(plan))
  {
    hide NeedsProvision, Unset, Normalized, ObfuscationOf;
    NormalizedFields(s, Some(plan), generated);
    FilledStays(Normalized(s, Some(plan), generated), later, generated2);
  }

  /** Without one, it is enough exactly when the address, interface and key were there already. */
  lemma NormalizeTwiceWithoutPlan(s: Settings, generated: Params, generated2: Params)
    requires !NeedsProvision(generated)
    ensures var r := Normalized(s, None, generated);
      (forall later: Option<Plan> :: (later.Some? ==> GoodPlan(later.value)) ==> Normalized(r, later, generated2) == r)
        <==>
        (!Unset(TextAt(s.text, Address)) && !Unset(TextAt(s.text, AwgInterface)) && !Unset(TextAt(s.text, SecretKey)))
  {
    hide NeedsProvision, Unset, Normalized, ObfuscationOf;
    var r := Normalized(s, None, generated);
    NormalizedFields(s, None, generated);
    if !Unset(TextAt(s.text, Address)) && !Unset(TextAt(s.text, AwgInterface)) && !Unset(TextAt(s.text, SecretKey)) {
      forall later: Option<Plan> | later.Some? ==> GoodPlan(later.value)
        ensures Normalized(r, later, generated2) == r
      {
        FilledStays(r, later, generated2);
      }
    } else {
      var plan := Plan(DefaultDns, 1420, "x", "x", "x", 1, "x", "x", generated);
      SomePlanIsGood(plan, generated);
      TextHas(r, Some(plan), generated2, Address);
      TextHas(r, Some(plan), generated2, AwgInterface);
      TextHas(r, Some(plan), generated2, SecretKey);
      assert Normalized(r, Some(plan), generated2) != r;
    }
  }

  lemma SomePlanIsGood(plan: Plan, generated: Params)
    requires plan == Plan(DefaultDns, 1420, "x", "x", "x", 1, "x", "x", generated) && !NeedsProvision(generated)
    ensures GoodPlan(plan) && !Unset("x")
  {
    hide NeedsProvision, IsSpace, TrimSpace;
    DefaultDnsIsVisible();
    XIsVisible();
    TightTrims("x");
  }

  lemma XIsVisible()
    ensures !IsSpace('x')
  {
  }
}
