/**
 What one pass of NormalizeInboundSettings (internal/awg/normalize.go) leaves under each key.
 */
module NormalizeLaws {
  import opened Prelude
  import opened Text
  import opened Obfuscation
  import opened Normalize

  /** t where it was visible, the filling where it was not. */
  function Filling(t: string, filling: string): string {
    if TrimSpace(t) == "" then filling else t
  }

  /** With a plan: its values where the settings were blank, and the settings' own elsewhere. */
  lemma PassWithPlan(s: Settings, p: Plan, generated: Params)
    ensures var r := Normalized(s, Some(p), generated);
      && TextAt(r.text, Dns) == Filling(TextAt(s.text, Dns), p.dns)
      && TextAt(r.text, Address) == Filling(TextAt(s.text, Address), p.serverAddress)
      && TextAt(r.text, AwgInterface) == Filling(TextAt(s.text, AwgInterface), p.interfaceName)
      && TextAt(r.text, SecretKey) == Filling(TextAt(s.text, SecretKey), p.privateKey)
      && NumAt(r.num, Mtu) == (if NumAt(s.num, Mtu) > 0 then NumAt(s.num, Mtu) else p.mtu)
      && r.rest == s.rest
    ensures forall port :: NormalizedPort(port, Some(p)) == if port > 0 then port else p.listenPort
  {
    hide NeedsProvision, Normalized, ObfuscationOf, TrimSpace;
    PassKeeps(s, Some(p), generated);
  }

  /** Without one: the default DNS servers and MTU, and nothing for the other keys. */
  lemma PassWithoutPlan(s: Settings, generated: Params)
    ensures var r := Normalized(s, None, generated);
      && TextAt(r.text, Dns) == Filling(TextAt(s.text, Dns), "1.1.1.1,2606:4700:4700::1111")
      && TextAt(r.text, Address) == TextAt(s.text, Address)
      && TextAt(r.text, AwgInterface) == TextAt(s.text, AwgInterface)
      && TextAt(r.text, SecretKey) == TextAt(s.text, SecretKey)
      && NumAt(r.num, Mtu) == (if NumAt(s.num, Mtu) > 0 then NumAt(s.num, Mtu) else 1420)
      && r.rest == s.rest
    ensures forall port :: NormalizedPort(port, None) == port
  {
    hide NeedsProvision, Normalized, ObfuscationOf, TrimSpace;
    PassKeeps(s, None, generated);
  }

  lemma PassKeeps(s: Settings, plan: Option<Plan>, generated: Params)
    ensures var r := Normalized(s, plan, generated);
      && (forall t :: Held(r.text, t) == Or(WrittenText(s, plan, generated, t), Held(s.text, t)))
      && Held(r.num, Mtu) == Or(WrittenNum(s, plan, generated, Mtu), Held(s.num, Mtu))
      && (forall t :: TextAt(r.text, t) == if Held(r.text, t).Some? then Held(r.text, t).value else "")
      && r.rest == s.rest
  {
    hide WrittenText, WrittenNum, Normalized;
    var r := Normalized(s, plan, generated);
    forall t
      ensures Held(r.text, t) == Or(WrittenText(s, plan, generated, t), Held(s.text, t))
      ensures TextAt(r.text, t) == if Held(r.text, t).Some? then Held(r.text, t).value else ""
    {
      TextHas(s, plan, generated, t);
      TextFrom(r.text, t);
    }
    NumHas(s, plan, generated, Mtu);
    RestStays(s, plan, generated);
  }

  /** The sixteen keys hold these parameters. */
  predicate Holds(s: Settings, p: Params) {
    && NumAt(s.num, Jc) == p.jc && NumAt(s.num, Jmin) == p.jmin && NumAt(s.num, Jmax) == p.jmax
    && NumAt(s.num, S1) == p.s1 && NumAt(s.num, S2) == p.s2 && NumAt(s.num, S3) == p.s3 && NumAt(s.num, S4) == p.s4
    && TextAt(s.text, H1) == p.h1 && TextAt(s.text, H2) == p.h2
    && TextAt(s.text, H3) == p.h3 && TextAt(s.text, H4) == p.h4
    && TextAt(s.text, I1) == p.i1 && TextAt(s.text, I2) == p.i2 && TextAt(s.text, I3) == p.i3
    && TextAt(s.text, I4) == p.i4 && TextAt(s.text, I5) == p.i5
  }

  /** The parameters, key by key: all replaced, by the plan's or the generated ones, or all kept. */
  lemma PassParameters(s: Settings, plan: Option<Plan>, generated: Params, kept: Params)
    requires Holds(s, kept)
    ensures var r := Normalized(s, plan, generated);
      if !NeedsProvision(kept) then Holds(r, kept)
      else if plan.Some? then Holds(r, plan.value.obf)
      else Holds(r, generated)
  {
    hide NeedsProvision, Normalized, TextAt, NumAt;
    NormalizedObfuscation(s, plan, generated);
  }
}
