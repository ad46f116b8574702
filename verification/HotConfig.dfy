/**
 Generated core configurations and the decoders hot_diff.go runs over them, plus the
 state a core started from such a configuration is in.
 */
module HotConfig {
  import opened Prelude
  import opened JsonValues

  datatype InboundConfig = InboundConfig(
    listen: Raw, port: int, protocol: string, settings: Raw,
    streamSettings: Raw, tag: string, sniffing: Raw)

  datatype OutboundEntry = OutboundEntry(tag: string, value: Json)

  datatype Config = Config(
    log: Raw, dns: Raw, transport: Raw, policy: Raw, api: Raw, stats: Raw,
    reverse: Raw, fakeDns: Raw, observatory: Raw, burstObservatory: Raw,
    metrics: Raw, geodata: Raw,
    inbounds: seq<InboundConfig>, outbounds: Raw, routing: Raw)

  /** The sections ComputeHotDiff compares, in its order. */
  function StaticSections(c: Config): seq<Raw> {
    [c.log, c.dns, c.transport, c.policy, c.api, c.stats, c.reverse, c.fakeDns,
     c.observatory, c.burstObservatory, c.metrics, c.geodata]
  }

  // ---- decoders -------------------------------------------------------------

  /** The clients array indexed by email; None on a non-object, an absent email or a duplicate. */
  function IndexClients(items: seq<Json>): Option<map<string, Json>> {
    if items == [] then Some(map[])
    else
      var n := |items| - 1;
      var c := items[n];
      match IndexClients(items[..n])
      case None => None
      case Some(m) =>
        if c.Obj? && EmailOf(c) != "" && EmailOf(c) !in m then Some(m[EmailOf(c) := c]) else None
  }

  function EmailOf(client: Json): string
    requires client.Obj?
  {
    if "email" in client.fields && client.fields["email"].Str? then client.fields["email"].s else ""
  }

  datatype Split = Split(clients: map<string, Json>, rest: map<string, Json>)

  function SplitSettings(raw: Raw): Option<Split> {
    if raw.Good? && raw.value.Obj? && "clients" in raw.value.fields && raw.value.fields["clients"].Arr? then
      match IndexClients(raw.value.fields["clients"].items)
      case None => None
      case Some(m) => Some(Split(m, raw.value.fields - {"clients"}))
    else None
  }

  lemma {:induction false} IndexClientsPrefix(items: seq<Json>, k: nat)
    requires k <= |items| && IndexClients(items[..k]).None?
    ensures IndexClients(items).None?
    decreases |items| - k
  {
    if k < |items| {
      assert items[..k+1][..k] == items[..k];
      IndexClientsPrefix(items, k + 1);
    } else {
      assert items[..k] == items;
    }
  }

  /** Decoding settings into a struct whose clients carry an optional reverse value. */
  predicate HasReverseClient(settings: Raw) {
    && settings.Good? && settings.value.Obj?
    && "clients" in settings.value.fields
    && settings.value.fields["clients"].Arr?
    && var items := settings.value.fields["clients"].items;
       && (forall i :: 0 <= i < |items| ==> items[i].Obj? || items[i].Null?)
       && (exists i :: 0 <= i < |items| && ReverseSet(items[i]))
  }

  predicate ReverseSet(client: Json) {
    client.Obj? && "reverse" in client.fields && !client.fields["reverse"].Null?
  }

  /** Inbounds by tag; None when a tag is empty or repeated. */
  function InboundsByTag(inbounds: seq<InboundConfig>): Option<map<string, InboundConfig>> {
    if inbounds == [] then Some(map[])
    else
      var n := |inbounds| - 1;
      match InboundsByTag(inbounds[..n])
      case None => None
      case Some(m) =>
        var ib := inbounds[n];
        if ib.tag != "" && ib.tag !in m then Some(m[ib.tag := ib]) else None
  }

  lemma {:induction false} InboundsByTagPrefix(inbounds: seq<InboundConfig>, k: nat)
    requires k <= |inbounds|
    ensures InboundsByTag(inbounds[..k]).None? ==> InboundsByTag(inbounds).None?
    decreases |inbounds| - k
  {
    if k < |inbounds| {
      assert inbounds[..k+1][..k] == inbounds[..k];
      InboundsByTagPrefix(inbounds, k + 1);
    } else {
      assert inbounds[..k] == inbounds;
    }
  }

  /** m holds exactly the listed inbounds, each under its own non-empty tag. */
  ghost predicate Indexes(m: map<string, InboundConfig>, inbounds: seq<InboundConfig>) {
    && (forall i :: 0 <= i < |inbounds| ==> inbounds[i].tag in m && m[inbounds[i].tag] == inbounds[i])
    && (forall t :: t in m ==> m[t] in inbounds && m[t].tag == t && t != "")
  }

  ghost predicate DistinctInbounds(inbounds: seq<InboundConfig>) {
    forall i, j :: 0 <= i < j < |inbounds| ==> inbounds[i].tag != inbounds[j].tag
  }

  lemma {:induction false} InboundsByTagSound(inbounds: seq<InboundConfig>)
    requires InboundsByTag(inbounds).Some?
    ensures Indexes(InboundsByTag(inbounds).value, inbounds)
    ensures DistinctInbounds(inbounds)
  {
    if inbounds != [] {
      var n := |inbounds| - 1;
      var front, ib := inbounds[..n], inbounds[n];
      InboundsByTagSound(front);
      var m := InboundsByTag(front).value;
      assert InboundsByTag(inbounds).value == m[ib.tag := ib];
      assert inbounds == front + [ib];
      forall i | 0 <= i < n
        ensures inbounds[i].tag in m && inbounds[i].tag != ib.tag && m[inbounds[i].tag] == inbounds[i]
      {
        assert inbounds[i] == front[i];
      }
      forall i, j | 0 <= i < j < |inbounds|
        ensures inbounds[i].tag != inbounds[j].tag
      {
        if j < n {
          assert inbounds[i] == front[i] && inbounds[j] == front[j];
        }
      }
    }
  }

  /** The outbounds array; None when unreadable or when a tag is empty or repeated. */
  function ParseOutbounds(raw: Raw): Option<seq<OutboundEntry>> {
    match raw
    case Empty => Some([])
    case Bad(_) => None
    case Good(_, v) =>
      if v.Null? then Some([])
      else if v.Arr? then EntriesOf(v.items)
      else None
  }

  function EntriesOf(items: seq<Json>): Option<seq<OutboundEntry>> {
    if items == [] then Some([])
    else
      var n := |items| - 1;
      match EntriesOf(items[..n])
      case None => None
      case Some(es) =>
        match StringField(items[n], "tag")
        case None => None
        case Some(tag) =>
          if tag == "" || (exists i :: 0 <= i < |es| && es[i].tag == tag) then None
          else Some(es + [OutboundEntry(tag, items[n])])
  }

  lemma {:induction false} EntriesPrefix(items: seq<Json>, k: nat)
    requires k <= |items| && EntriesOf(items[..k]).None?
    ensures EntriesOf(items).None?
    decreases |items| - k
  {
    if k < |items| {
      assert items[..k+1][..k] == items[..k];
      EntriesPrefix(items, k + 1);
    } else {
      assert items[..k] == items;
    }
  }

  ghost predicate DistinctTags(es: seq<OutboundEntry>) {
    && (forall i, j :: 0 <= i < j < |es| ==> es[i].tag != es[j].tag)
    && (forall i :: 0 <= i < |es| ==> es[i].tag != "")
  }

  lemma {:induction false} EntriesDistinct(items: seq<Json>)
    requires EntriesOf(items).Some?
    ensures DistinctTags(EntriesOf(items).value)
  {
    if items != [] {
      EntriesDistinct(items[..|items| - 1]);
    }
  }

  lemma ParsedDistinct(raw: Raw)
    requires ParseOutbounds(raw).Some?
    ensures DistinctTags(ParseOutbounds(raw).value)
  {
    if raw.Good? && raw.value.Arr? {
      EntriesDistinct(raw.value.items);
    }
  }

  function OutboundTable(es: seq<OutboundEntry>): map<string, Json> {
    if es == [] then map[]
    else OutboundTable(es[..|es| - 1])[es[|es| - 1].tag := es[|es| - 1].value]
  }

  lemma TagsFront(es: seq<OutboundEntry>, n: nat)
    requires DistinctTags(es) && |es| == n + 1
    ensures DistinctTags(es[..n]) && forall i :: 0 <= i < n ==> es[..n][i] == es[i] && es[i].tag != es[n].tag
  {
  }

  lemma {:induction false} OutboundTableAt(es: seq<OutboundEntry>)
    requires DistinctTags(es)
    ensures forall i :: 0 <= i < |es| ==> es[i].tag in OutboundTable(es) && OutboundTable(es)[es[i].tag] == es[i].value
    ensures forall t :: t in OutboundTable(es) ==> exists i :: 0 <= i < |es| && es[i].tag == t
  {
    hide DistinctTags;
    if es != [] {
      var n := |es| - 1;
      TagsFront(es, n);
      OutboundTableAt(es[..n]);
      forall t | t in OutboundTable(es)
        ensures exists i :: 0 <= i < |es| && es[i].tag == t
      {
        if t != es[n].tag {
          assert t in OutboundTable(es[..n]);
          var i :| 0 <= i < |es[..n]| && es[..n][i].tag == t;
          assert es[i].tag == t;
        } else {
          assert es[n].tag == t;
        }
      }
    }
  }

  /** The restart-only part of a routing section: everything but rules and balancers. */
  function RoutingRest(raw: Raw): Option<Json> {
    match raw
    case Empty => Some(Obj(map[]))
    case Bad(_) => None
    case Good(_, v) =>
      if v.Null? then Some(Null)
      else if v.Obj? then Some(Obj(v.fields - {"rules", "balancers"}))
      else None
  }

  function ApiTag(api: Raw): string {
    if api.Good? && StringField(api.value, "tag").Some? && StringField(api.value, "tag").value != ""
    then StringField(api.value, "tag").value
    else "api"
  }

  // ---- the running core -----------------------------------------------------

  datatype Settings = Users(rest: map<string, Json>, users: map<string, Json>) | Whole(m: Meaning)

  datatype Handler = Handler(
    port: int, protocol: string, listen: Meaning, stream: Meaning, sniffing: Meaning, settings: Settings)

  /** The router works on a whole section; only an absent or unreadable one leaves the core without. */
  datatype Routing =
    | NoRouter
    | Router(section: Json)
    | Undecodable(raw: Raw)

  /** The sections a core reads once, when it starts. */
  datatype FixedParts = FixedParts(
    log: Meaning, dns: Meaning, transport: Meaning, policy: Meaning, api: Meaning, stats: Meaning,
    reverse: Meaning, fakeDns: Meaning, observatory: Meaning, burstObservatory: Meaning,
    metrics: Meaning, geodata: Meaning)

  datatype Core = Core(
    fixed: FixedParts,
    inbounds: map<string, Handler>,
    defaultOutbound: Option<OutboundEntry>,
    outbounds: map<string, Json>,
    routing: Routing)

  function SettingsOf(raw: Raw): Settings {
    match SplitSettings(raw)
    case Some(sp) => Users(sp.rest, sp.clients)
    case None => Whole(MeaningOf(raw))
  }

  function HandlerOf(ib: InboundConfig): Handler {
    Handler(ib.port, ib.protocol, MeaningOf(ib.listen), MeaningOf(ib.streamSettings),
            MeaningOf(ib.sniffing), SettingsOf(ib.settings))
  }

  function Field(v: Json, key: string): Option<Json> {
    if v.Obj? && key in v.fields then Some(v.fields[key]) else None
  }

  function RoutingOf(raw: Raw): Routing {
    match raw
    case Empty => NoRouter
    case Bad(_) => Undecodable(raw)
    case Good(_, v) => if v.Null? || v.Obj? then Router(v) else Undecodable(raw)
  }

  function FieldsOf(v: Json): map<string, Json> {
    if v.Obj? then v.fields else map[]
  }

  /** What replacing rules and balancers makes of a section: those two are the new ones, all else stays. */
  function Reloaded(now: Json, next: Json): Json {
    if now.Null? && next.Null? then Null
    else
      var (was, will) := (FieldsOf(now), FieldsOf(next));
      Obj(map k | k in was.Keys + will.Keys && (if k == "rules" || k == "balancers" then k in will else k in was)
            :: if k == "rules" || k == "balancers" then will[k] else was[k])
  }

  /** Two sections with nothing but rules and balancers between them. */
  ghost predicate SameButReloadable(a: Json, b: Json) {
    || (a.Null? && b.Null?)
    || (a.Obj? && b.Obj? && forall k :: k != "rules" && k != "balancers" ==> Field(a, k) == Field(b, k))
  }

  lemma ReloadedIsNew(now: Json, next: Json)
    requires SameButReloadable(now, next)
    ensures Reloaded(now, next) == next
  {
    if next.Obj? {
      var r := Reloaded(now, next).fields;
      forall k
        ensures k in r <==> k in next.fields
        ensures k in r ==> r[k] == next.fields[k]
      {
        if k != "rules" && k != "balancers" {
          assert Field(now, k) == Field(next, k);
        }
      }
      assert r == next.fields;
    }
  }

  /** Reloading, with any other section, changes nothing but rules and balancers. */
  lemma ReloadedKeepsRest(now: Json, next: Json)
    requires (now.Null? && next.Null?) || (now.Obj? && next.Obj?)
    ensures SameButReloadable(Reloaded(now, next), now)
  {
  }

  function Handlers(byTag: map<string, InboundConfig>): map<string, Handler> {
    map t | t in byTag :: HandlerOf(byTag[t])
  }

  /** The state of a core started from a configuration whose handlers all have usable tags. */
  function Running(c: Config): Core {
    var es := match ParseOutbounds(c.outbounds) case Some(es) => es case None => [];
    Core(
      FixedParts(
        MeaningOf(c.log), MeaningOf(c.dns), MeaningOf(c.transport), MeaningOf(c.policy), MeaningOf(c.api),
        MeaningOf(c.stats), MeaningOf(c.reverse), MeaningOf(c.fakeDns), MeaningOf(c.observatory),
        MeaningOf(c.burstObservatory), MeaningOf(c.metrics), MeaningOf(c.geodata)),
      match InboundsByTag(c.inbounds) { case Some(m) => Handlers(m) case None => map[] },
      if es == [] then None else Some(es[0]),
      OutboundTable(es),
      RoutingOf(c.routing))
  }

  // ---- API operations on a running core ---------------------------------------

  datatype Op =
    | RemoveUser(tag: string, email: string)
    | RemoveInbound(tag: string)
    | RemoveOutbound(tag: string)
    | AddOutbound(entry: OutboundEntry)
    | AddInbound(inbound: InboundConfig)
    | AddUser(tag: string, email: string, user: Json)
    | SetRouting(raw: Raw)

  function WithUsers(h: Handler, users: map<string, Json>): Handler
    requires h.settings.Users?
  {
    h.(settings := h.settings.(users := users))
  }

  /** One operation; None when the core would answer "not found" or "existing tag". */
  function Step(c: Core, op: Op): Option<Core> {
    match op
    case RemoveUser(t, e) =>
      if t in c.inbounds && c.inbounds[t].settings.Users? && e in c.inbounds[t].settings.users then
        Some(c.(inbounds := c.inbounds[t := WithUsers(c.inbounds[t], c.inbounds[t].settings.users - {e})]))
      else None
    case RemoveInbound(t) =>
      if t in c.inbounds then Some(c.(inbounds := c.inbounds - {t})) else None
    case RemoveOutbound(t) =>
      if t in c.outbounds then Some(c.(outbounds := c.outbounds - {t})) else None
    case AddOutbound(e) =>
      if e.tag in c.outbounds then None else Some(c.(outbounds := c.outbounds[e.tag := e.value]))
    case AddInbound(ib) =>
      if ib.tag in c.inbounds then None else Some(c.(inbounds := c.inbounds[ib.tag := HandlerOf(ib)]))
    case AddUser(t, e, u) =>
      if t in c.inbounds && c.inbounds[t].settings.Users? && e !in c.inbounds[t].settings.users then
        Some(c.(inbounds := c.inbounds[t := WithUsers(c.inbounds[t], c.inbounds[t].settings.users[e := u])]))
      else None
    case SetRouting(raw) =>
      if c.routing.Router? && RoutingOf(raw).Router? then
        Some(c.(routing := Router(Reloaded(c.routing.section, RoutingOf(raw).section))))
      else None
  }

  function Run(c: Core, ops: seq<Op>): Option<Core>
    decreases |ops|
  {
    if ops == [] then Some(c)
    else
      match Step(c, ops[0])
      case None => None
      case Some(c1) => Run(c1, ops[1..])
  }

  /**
   The panel's own retry rules: a missing handler or user counts as removed, and an addition
   that meets an existing tag or email removes the old one first and adds again.
   */
  function LenientStep(c: Core, op: Op): Option<Core> {
    match Step(c, op)
    case Some(c1) => Some(c1)
    case None =>
      match op
      case RemoveUser(_, _) => Some(c)
      case RemoveInbound(_) => Some(c)
      case RemoveOutbound(_) => Some(c)
      case AddOutbound(e) => Retry(c, RemoveOutbound(e.tag), op)
      case AddInbound(ib) => Retry(c, RemoveInbound(ib.tag), op)
      case AddUser(t, e, _) => Retry(c, RemoveUser(t, e), op)
      case SetRouting(_) => None
  }

  function Retry(c: Core, removal: Op, op: Op): Option<Core> {
    match Step(c, removal)
    case None => Step(c, op)
    case Some(c1) => Step(c1, op)
  }

  function LenientRun(c: Core, ops: seq<Op>): Option<Core>
    decreases |ops|
  {
    if ops == [] then Some(c)
    else
      match LenientStep(c, ops[0])
      case None => None
      case Some(c1) => LenientRun(c1, ops[1..])
  }

  lemma {:induction false} RunConcat(c: Core, a: seq<Op>, b: seq<Op>)
    requires Run(c, a).Some?
    ensures Run(c, a + b) == Run(Run(c, a).value, b)
    decreases |a|
  {
    if a == [] {
      assert a + b == b;
    } else {
      assert (a + b)[0] == a[0] && (a + b)[1..] == a[1..] + b;
      RunConcat(Step(c, a[0]).value, a[1..], b);
    }
  }

  lemma {:induction false} LenientRunConcat(c: Core, a: seq<Op>, b: seq<Op>)
    requires LenientRun(c, a).Some?
    ensures LenientRun(c, a + b) == LenientRun(LenientRun(c, a).value, b)
    decreases |a|
  {
    if a == [] {
      assert a + b == b;
    } else {
      assert (a + b)[0] == a[0] && (a + b)[1..] == a[1..] + b;
      LenientRunConcat(LenientStep(c, a[0]).value, a[1..], b);
    }
  }
}
