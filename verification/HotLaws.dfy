/**
 What the decoders of the hot diff (internal/xray/hot_diff.go) keep of a configuration, said of the
 JSON values themselves: which sections are equal, which clients and outbounds are read, and which
 changes force a restart.
 */
module HotLaws {
  import opened Prelude
  import opened JsonValues
  import opened HotConfig
  import opened HotDiff

  predicate Absent(raw: Raw) { raw.Empty? || (raw.Good? && raw.value.Null?) }

  /** One text, both absent or null, or decoding to one value. */
  predicate Same(a: Raw, b: Raw) {
    a == b || (Absent(a) && Absent(b)) || (a.Good? && b.Good? && a.value == b.value)
  }

  lemma SectionsEqualExactly(a: Raw, b: Raw)
    ensures RawEqualNormalized(a, b) <==> Same(a, b)
  {
  }

  /** v's string under key is s. */
  predicate Says(v: Json, key: string, s: string) {
    Field(v, key) == Some(Str(s))
  }

  /** v has a non-empty string under key. */
  predicate Named(v: Json, key: string) {
    Field(v, key).Some? && Field(v, key).value.Str? && Field(v, key).value.s != ""
  }

  /** Every item has a non-empty string under key, and no two have the same. */
  predicate OwnNames(items: seq<Json>, key: string) {
    && (forall i :: 0 <= i < |items| ==> Named(items[i], key))
    && (forall i, j :: 0 <= i < j < |items| ==> Field(items[i], key) != Field(items[j], key))
  }

  lemma FewerNames(items: seq<Json>, c: Json, key: string)
    requires OwnNames(items + [c], key)
    ensures OwnNames(items, key)
  {
    var more := items + [c];
    assert forall i :: 0 <= i < |items| ==> items[i] == more[i];
  }

  lemma OneMoreName(items: seq<Json>, c: Json, key: string)
    requires OwnNames(items, key)
    ensures OwnNames(items + [c], key) <==>
      Named(c, key) && forall i :: 0 <= i < |items| ==> Field(items[i], key) != Field(c, key)
  {
    var more := items + [c];
    assert forall i :: 0 <= i < |items| ==> items[i] == more[i];
    assert more[|items|] == c;
  }

  /** The api inbound's tag: the section's own, when it has a non-empty one, otherwise "api". */
  lemma ApiTagExactly(api: Raw)
    ensures forall s :: api.Good? && Says(api.value, "tag", s) && s != "" ==> ApiTag(api) == s
    ensures (forall s :: api.Good? && Says(api.value, "tag", s) ==> s == "") ==> ApiTag(api) == "api"
  {
    if api.Good? && api.value.Obj? && "tag" in api.value.fields && api.value.fields["tag"].Str? {
      assert Says(api.value, "tag", api.value.fields["tag"].s);
    }
  }

  // ---- clients -------------------------------------------------------------------------

  /** m holds exactly the listed clients, each under its email. */
  ghost predicate ClientsAre(m: map<string, Json>, items: seq<Json>) {
    && (forall e :: e in m ==> m[e] in items && Says(m[e], "email", e))
    && (forall i :: 0 <= i < |items| ==> Named(items[i], "email") && Field(items[i], "email").value.s in m)
    && (forall i :: 0 <= i < |items| ==> m[Field(items[i], "email").value.s] == items[i])
  }

  lemma {:induction false} IndexClientsExactly(items: seq<Json>)
    ensures IndexClients(items).Some? <==> OwnNames(items, "email")
    ensures IndexClients(items).Some? ==> ClientsAre(IndexClients(items).value, items)
  {
    hide OwnNames, ClientsAre;
    if items == [] {
      NoClients();
    } else {
      var n := |items| - 1;
      IndexClientsExactly(items[..n]);
      assert items == items[..n] + [items[n]];
      if IndexClients(items[..n]).Some? {
        OneMoreClient(IndexClients(items[..n]).value, items[..n], items[n]);
      } else if OwnNames(items, "email") {
        FewerNames(items[..n], items[n], "email");
      }
    }
  }

  lemma NoClients()
    ensures OwnNames([], "email") && ClientsAre(map[], [])
  {
  }

  lemma OneMoreClient(m: map<string, Json>, items: seq<Json>, c: Json)
    requires OwnNames(items, "email") && ClientsAre(m, items)
    ensures var isNew := c.Obj? && EmailOf(c) != "" && EmailOf(c) !in m;
      && (isNew <==> OwnNames(items + [c], "email"))
      && (isNew ==> ClientsAre(m[EmailOf(c) := c], items + [c]))
  {
    hide OwnNames;
    OneMoreName(items, c, "email");
    if c.Obj? && EmailOf(c) != "" && EmailOf(c) !in m {
      NewClientIsHeld(m, items, c);
    }
  }

  lemma NewClientIsHeld(m: map<string, Json>, items: seq<Json>, c: Json)
    requires ClientsAre(m, items) && c.Obj? && EmailOf(c) != "" && EmailOf(c) !in m
    ensures ClientsAre(m[EmailOf(c) := c], items + [c])
  {
    var more := items + [c];
    assert forall i :: 0 <= i < |more| ==> more[i] == if i < |items| then items[i] else c;
    assert more[|items|] == c;
    forall e | e in m
      ensures m[e] in more
    {
      var i :| 0 <= i < |items| && items[i] == m[e];
      assert more[i] == m[e];
    }
  }

  /** A settings section can be split exactly when it is an object whose clients all have emails of their own. */
  ghost predicate Splittable(raw: Raw) {
    && raw.Good? && Field(raw.value, "clients").Some? && Field(raw.value, "clients").value.Arr?
    && OwnNames(Field(raw.value, "clients").value.items, "email")
  }

  /** Splitting keeps every client under its email, and every other key with its value. */
  lemma SplitExactly(raw: Raw)
    ensures SplitSettings(raw).Some? <==> Splittable(raw)
    ensures SplitSettings(raw).Some? ==>
      var sp := SplitSettings(raw).value;
      && ClientsAre(sp.clients, Field(raw.value, "clients").value.items)
      && (forall k :: k != "clients" ==> Field(Obj(sp.rest), k) == Field(raw.value, k)) && "clients" !in sp.rest
  {
    hide OwnNames, ClientsAre, IndexClients;
    if raw.Good? && raw.value.Obj? && "clients" in raw.value.fields && raw.value.fields["clients"].Arr? {
      IndexClientsExactly(raw.value.fields["clients"].items);
    }
  }

  /** Only their client lists may differ: everything else about the two inbounds is the same. */
  ghost predicate SameButClients(a: InboundConfig, b: InboundConfig) {
    && a.port == b.port && a.protocol == b.protocol && a.tag == b.tag
    && MeaningOf(a.listen) == MeaningOf(b.listen) && MeaningOf(a.streamSettings) == MeaningOf(b.streamSettings)
    && MeaningOf(a.sniffing) == MeaningOf(b.sniffing)
    && a.settings.Good? && b.settings.Good?
    && forall k :: k != "clients" ==> Field(a.settings.value, k) == Field(b.settings.value, k)
  }

  /** Clients are edited in place exactly for three protocols, readable client lists and nothing else changed. */
  lemma UserEditsExactly(a: InboundConfig, b: InboundConfig)
    ensures UserDiffable(a, b) <==>
      && SameButClients(a, b) && Splittable(a.settings) && Splittable(b.settings)
      && (a.protocol == "vless" || a.protocol == "vmess" || a.protocol == "trojan")
  {
    hide Splittable, MeaningOf, SplitSettings, ClientsAre;
    SplitExactly(a.settings);
    SplitExactly(b.settings);
    if Splittable(a.settings) && Splittable(b.settings) {
      SplittableIsGood(a.settings);
      SplittableIsGood(b.settings);
      var x, y := SplitSettings(a.settings).value.rest, SplitSettings(b.settings).value.rest;
      if forall k :: k != "clients" ==> Field(a.settings.value, k) == Field(b.settings.value, k) {
        forall k
          ensures Field(Obj(x), k) == Field(Obj(y), k)
        {
          assert k != "clients" ==> Field(a.settings.value, k) == Field(b.settings.value, k);
        }
        SameFields(x, y);
      }
      if x == y {
        forall k | k != "clients"
          ensures Field(a.settings.value, k) == Field(b.settings.value, k)
        {
          assert Field(Obj(x), k) == Field(Obj(y), k);
        }
      }
    }
  }

  lemma SplittableIsGood(raw: Raw)
    requires Splittable(raw)
    ensures raw.Good? && raw.value.Obj?
  {
  }

  lemma SameFields(x: map<string, Json>, y: map<string, Json>)
    requires forall k :: Field(Obj(x), k) == Field(Obj(y), k)
    ensures x == y
  {
    forall k
      ensures k in x <==> k in y
      ensures k in x ==> x[k] == y[k]
    {
      assert Field(Obj(x), k) == Field(Obj(y), k);
    }
  }

  // ---- reverse clients -------------------------------------------------------------------

  /** Some client carries a reverse value, in settings whose clients are all objects or null. */
  ghost predicate CarriesReverse(settings: Raw) {
    && settings.Good? && Field(settings.value, "clients").Some? && Field(settings.value, "clients").value.Arr?
    && var items := Field(settings.value, "clients").value.items;
       && (forall i :: 0 <= i < |items| ==> items[i].Obj? || items[i].Null?)
       && exists i :: 0 <= i < |items| && Field(items[i], "reverse").Some? && Field(items[i], "reverse").value != Null
  }

  lemma ReverseExactly(settings: Raw)
    ensures HasReverseClient(settings) <==> CarriesReverse(settings)
  {
    if settings.Good? && settings.value.Obj? && "clients" in settings.value.fields
       && settings.value.fields["clients"].Arr? {
      var items := settings.value.fields["clients"].items;
      assert forall i :: 0 <= i < |items| ==>
        (ReverseSet(items[i]) <==> Field(items[i], "reverse").Some? && Field(items[i], "reverse").value != Null);
    }
  }

  /** inboundHasReverseClient: the loop over the decoded clients; settings of another shape do not decode. */
  method InboundHasReverseClient(settings: Raw) returns (has: bool)
    ensures has <==> CarriesReverse(settings)
  {
    if !settings.Good? || !settings.value.Obj? || "clients" !in settings.value.fields
       || !settings.value.fields["clients"].Arr? {
      return false;
    }
    var items := settings.value.fields["clients"].items;
    for i := 0 to |items|
      invariant forall k :: 0 <= k < i ==> items[k].Obj? || items[k].Null?
    {
      if !items[i].Obj? && !items[i].Null? {
        return false;
      }
    }
    for i := 0 to |items|
      invariant forall k :: 0 <= k < i ==> Field(items[k], "reverse").None? || Field(items[k], "reverse").value == Null
    {
      var reverse := Field(items[i], "reverse");
      if reverse.None? || reverse.value.Null? {
        continue;
      }
      return true;
    }
    return false;
  }

  lemma IndexedAt(inbounds: seq<InboundConfig>, i: nat)
    requires InboundsByTag(inbounds).Some? && i < |inbounds|
    ensures var m := InboundsByTag(inbounds).value; inbounds[i].tag in m && m[inbounds[i].tag] == inbounds[i]
  {
    InboundsByTagSound(inbounds);
  }

  /** A changed inbound that carries, or comes to carry, a reverse client is never applied hot. */
  lemma ReverseForcesRestart(a: Config, b: Config, i: nat, j: nat)
    requires i < |a.inbounds| && j < |b.inbounds| && a.inbounds[i].tag == b.inbounds[j].tag
    requires !InboundEqualNormalized(a.inbounds[i], b.inbounds[j])
    requires CarriesReverse(a.inbounds[i].settings) || CarriesReverse(b.inbounds[j].settings)
    ensures !HotAppliable(a, b)
  {
    hide InboundsByTag, InboundEqualNormalized, HasReverseClient, CarriesReverse;
    ReverseExactly(a.inbounds[i].settings);
    ReverseExactly(b.inbounds[j].settings);
    if HotAppliable(a, b) {
      IndexedAt(a.inbounds, i);
      IndexedAt(b.inbounds, j);
      ReverseIsRefused(InboundsByTag(a.inbounds).value, InboundsByTag(b.inbounds).value,
        a.inbounds[i], b.inbounds[j], ApiTag(b.api));
    }
  }

  lemma ReverseIsRefused(olds: map<string, InboundConfig>, news: map<string, InboundConfig>, x: InboundConfig,
                         y: InboundConfig, apiTag: string)
    requires x.tag == y.tag && x.tag in olds && olds[x.tag] == x && x.tag in news && news[x.tag] == y
    requires !InboundEqualNormalized(x, y) && (HasReverseClient(x.settings) || HasReverseClient(y.settings))
    ensures !NoneRefused(olds, news, apiTag)
  {
    assert FateOf(olds[x.tag], news, apiTag).Refuse?;
  }

  /** Nor is a new inbound with a section that does not decode. */
  lemma UnreadableForcesRestart(a: Config, b: Config, j: nat)
    requires j < |b.inbounds| && forall i :: 0 <= i < |a.inbounds| ==> a.inbounds[i].tag != b.inbounds[j].tag
    requires var ib := b.inbounds[j]; ib.listen.Bad? || ib.settings.Bad? || ib.streamSettings.Bad? || ib.sniffing.Bad?
    ensures !HotAppliable(a, b)
  {
    hide InboundsByTag;
    var t := b.inbounds[j].tag;
    if InboundsByTag(a.inbounds).Some? && InboundsByTag(b.inbounds).Some? {
      InboundsByTagSound(a.inbounds);
      IndexedAt(b.inbounds, j);
      NotListed(InboundsByTag(a.inbounds).value, a.inbounds, t);
    }
  }

  lemma NotListed(m: map<string, InboundConfig>, inbounds: seq<InboundConfig>, t: string)
    requires Indexes(m, inbounds) && forall i :: 0 <= i < |inbounds| ==> inbounds[i].tag != t
    ensures t !in m
  {
  }

  // ---- outbounds -----------------------------------------------------------------------------

  /** es are the outbounds in order, each with its tag. */
  ghost predicate EntriesAre(es: seq<OutboundEntry>, items: seq<Json>) {
    |es| == |items|
    && forall i :: 0 <= i < |items| ==> es[i].value == items[i] && Says(items[i], "tag", es[i].tag) && es[i].tag != ""
  }

  lemma {:induction false} EntriesExactly(items: seq<Json>)
    ensures EntriesOf(items).Some? <==> OwnNames(items, "tag")
    ensures EntriesOf(items).Some? ==> EntriesAre(EntriesOf(items).value, items)
  {
    hide OwnNames, EntriesAre, StringField;
    if items == [] {
      NoEntries();
    } else {
      var n := |items| - 1;
      EntriesExactly(items[..n]);
      assert items == items[..n] + [items[n]];
      if EntriesOf(items[..n]).Some? {
        OneMoreEntry(EntriesOf(items[..n]).value, items[..n], items[n]);
      } else if OwnNames(items, "tag") {
        FewerNames(items[..n], items[n], "tag");
      }
    }
  }

  lemma NoEntries()
    ensures OwnNames([], "tag") && EntriesAre([], [])
  {
  }

  lemma OneMoreEntry(es: seq<OutboundEntry>, items: seq<Json>, c: Json)
    requires OwnNames(items, "tag") && EntriesAre(es, items)
    ensures var tag := StringField(c, "tag");
      var taken := tag.Some? && exists i :: 0 <= i < |es| && es[i].tag == tag.value;
      && ((tag.Some? && tag.value != "" && !taken) <==> OwnNames(items + [c], "tag"))
      && (tag.Some? && tag.value != "" ==> EntriesAre(es + [OutboundEntry(tag.value, c)], items + [c]))
  {
    hide OwnNames;
    OneMoreName(items, c, "tag");
    var tag := StringField(c, "tag");
    if i :| 0 <= i < |items| && Field(items[i], "tag") == Field(c, "tag") {
      assert es[i].tag == tag.value;
    }
  }

  /** An outbound section is read exactly when it is absent, null, or a list of outbounds with tags of their own. */
  lemma OutboundsReadExactly(raw: Raw)
    ensures ParseOutbounds(raw).Some? <==>
      Absent(raw) || (raw.Good? && raw.value.Arr? && OwnNames(raw.value.items, "tag"))
    ensures ParseOutbounds(raw).Some? ==>
      if Absent(raw) then ParseOutbounds(raw).value == [] else EntriesAre(ParseOutbounds(raw).value, raw.value.items)
  {
    hide OwnNames, EntriesAre, EntriesOf;
    if raw.Good? && raw.value.Arr? {
      EntriesExactly(raw.value.items);
    }
  }

  // ---- routing -----------------------------------------------------------------------------

  /** A changed routing section is applied hot only when rules and balancers are all that changed. */
  lemma RoutingChangeExactly(a: Raw, b: Raw)
    requires a != b
    ensures RoutingAppliable(a, b) <==>
      && a.Good? && b.Good?
      && ((a.value.Null? && b.value.Null?)
          || (a.value.Obj? && b.value.Obj?
              && forall k :: k != "rules" && k != "balancers" ==> Field(a.value, k) == Field(b.value, k)))
  {
  }

  // ---- everything else --------------------------------------------------------------------

  /** Any of these twelve sections changed forces a restart. */
  lemma FixedSectionsDecide(a: Config, b: Config)
    ensures HotAppliable(a, b) ==>
      && Same(a.log, b.log) && Same(a.dns, b.dns) && Same(a.transport, b.transport) && Same(a.policy, b.policy)
      && Same(a.api, b.api) && Same(a.stats, b.stats) && Same(a.reverse, b.reverse) && Same(a.fakeDns, b.fakeDns)
      && Same(a.observatory, b.observatory) && Same(a.burstObservatory, b.burstObservatory)
      && Same(a.metrics, b.metrics) && Same(a.geodata, b.geodata)
  {
    hide MeaningOf, Same, InboundsAppliable, OutboundsAppliable, RoutingAppliable;
    SameMeaning(a.log, b.log);
    SameMeaning(a.dns, b.dns);
    SameMeaning(a.transport, b.transport);
    SameMeaning(a.policy, b.policy);
    SameMeaning(a.api, b.api);
    SameMeaning(a.stats, b.stats);
    SameMeaning(a.reverse, b.reverse);
    SameMeaning(a.fakeDns, b.fakeDns);
    SameMeaning(a.observatory, b.observatory);
    SameMeaning(a.burstObservatory, b.burstObservatory);
    SameMeaning(a.metrics, b.metrics);
    SameMeaning(a.geodata, b.geodata);
  }

  lemma SameMeaning(a: Raw, b: Raw)
    ensures MeaningOf(a) == MeaningOf(b) <==> Same(a, b)
  {
  }

  /** An inbound is left alone exactly when each of its seven parts means the same as before. */
  lemma InboundSameExactly(a: InboundConfig, b: InboundConfig)
    ensures InboundEqualNormalized(a, b) <==>
      && a.port == b.port && a.protocol == b.protocol && a.tag == b.tag
      && Same(a.listen, b.listen) && Same(a.settings, b.settings)
      && Same(a.streamSettings, b.streamSettings) && Same(a.sniffing, b.sniffing)
  {
    SectionsEqualExactly(a.listen, b.listen);
    SectionsEqualExactly(a.settings, b.settings);
    SectionsEqualExactly(a.streamSettings, b.streamSettings);
    SectionsEqualExactly(a.sniffing, b.sniffing);
  }
}
