/**
 The hot-reload diff (internal/xray/hot_diff.go): two configurations are compared and the
 API operations that move a running core from one to the other are collected, or the diff is
 refused because only a restart can apply the change.
 */
module HotDiff {
  import opened Prelude
  import opened JsonValues
  import opened HotConfig

  datatype UserOp = UserOp(tag: string, protocol: string, email: string, user: Option<Json>)

  /** The edit script under construction; the diff methods append to its fields. */
  class Diff {
    var removedInboundTags: seq<string>
    var addedInbounds: seq<InboundConfig>
    var removedUsers: seq<UserOp>
    var addedUsers: seq<UserOp>
    var removedOutboundTags: seq<string>
    var addedOutbounds: seq<OutboundEntry>
    var routingConfig: Option<Raw>

    constructor ()
      ensures View() == EmptyEdits
    {
      removedInboundTags, addedInbounds, removedUsers, addedUsers := [], [], [], [];
      removedOutboundTags, addedOutbounds, routingConfig := [], [], None;
    }

    function View(): Edits
      reads this
    {
      Edits(removedInboundTags, addedInbounds, removedUsers, addedUsers,
            removedOutboundTags, addedOutbounds, routingConfig)
    }

    predicate Empty()
      reads this
      ensures Empty() <==> View() == EmptyEdits
    {
      && |removedInboundTags| == 0 && |addedInbounds| == 0
      && |removedUsers| == 0 && |addedUsers| == 0
      && |removedOutboundTags| == 0 && |addedOutbounds| == 0
      && routingConfig.None?
    }
  }

  /** The contents of a diff as a value. */
  datatype Edits = Edits(
    removedInboundTags: seq<string>, addedInbounds: seq<InboundConfig>,
    removedUsers: seq<UserOp>, addedUsers: seq<UserOp>,
    removedOutboundTags: seq<string>, addedOutbounds: seq<OutboundEntry>,
    routingConfig: Option<Raw>)

  const EmptyEdits := Edits([], [], [], [], [], [], None)

  // ---- equality and classification -------------------------------------------

  predicate InboundEqualNormalized(a: InboundConfig, b: InboundConfig) {
    && a.port == b.port
    && a.protocol == b.protocol
    && a.tag == b.tag
    && RawEqualNormalized(a.listen, b.listen)
    && RawEqualNormalized(a.settings, b.settings)
    && RawEqualNormalized(a.streamSettings, b.streamSettings)
    && RawEqualNormalized(a.sniffing, b.sniffing)
  }

  const UserDiffableProtocols := {"vless", "vmess", "trojan"}

  /** When two same-tag inbounds differ only in their client list. */
  predicate UserDiffable(a: InboundConfig, b: InboundConfig) {
    && a.port == b.port && a.protocol == b.protocol && a.tag == b.tag
    && a.protocol in UserDiffableProtocols
    && RawEqualNormalized(a.listen, b.listen)
    && RawEqualNormalized(a.streamSettings, b.streamSettings)
    && RawEqualNormalized(a.sniffing, b.sniffing)
    && SplitSettings(a.settings).Some?
    && SplitSettings(b.settings).Some?
    && SplitSettings(a.settings).value.rest == SplitSettings(b.settings).value.rest
  }

  /** json.Marshal refuses an inbound that embeds undecodable bytes. */
  predicate Marshals(ib: InboundConfig) {
    !ib.listen.Bad? && !ib.settings.Bad? && !ib.streamSettings.Bad? && !ib.sniffing.Bad?
  }

  /** What the diff decides about one running inbound. */
  datatype Fate = Keep | Refuse | EditUsers | Replace | Drop

  function FateOf(ib: InboundConfig, newBy: map<string, InboundConfig>, apiTag: string): Fate {
    if ib.tag in newBy && InboundEqualNormalized(ib, newBy[ib.tag]) then Keep
    else if ib.tag == apiTag || ib.tag == "api" then Refuse
    else if ib.tag !in newBy then Drop
    else if HasReverseClient(ib.settings) || HasReverseClient(newBy[ib.tag].settings) then Refuse
    else if UserDiffable(ib, newBy[ib.tag]) then EditUsers
    else if Marshals(newBy[ib.tag]) then Replace
    else Refuse
  }

  // Per-user edits between two clients maps.

  function GoneOrChanged(oldC: map<string, Json>, newC: map<string, Json>): set<string> {
    set e | e in oldC && (e !in newC || newC[e] != oldC[e])
  }

  function NewOrChanged(oldC: map<string, Json>, newC: map<string, Json>): set<string> {
    set e | e in newC && (e !in oldC || newC[e] != oldC[e])
  }

  function Clients(ib: InboundConfig): map<string, Json> {
    match SplitSettings(ib.settings)
    case Some(sp) => sp.clients
    case None => map[]
  }

  predicate Names(us: seq<UserOp>, t: string, e: string) {
    exists i :: 0 <= i < |us| && us[i].tag == t && us[i].email == e
  }

  ghost predicate DistinctUsers(us: seq<UserOp>) {
    forall i, j :: 0 <= i < j < |us| ==> us[i].tag != us[j].tag || us[i].email != us[j].email
  }

  lemma NamesConcat(a: seq<UserOp>, b: seq<UserOp>)
    ensures forall t, e :: Names(a + b, t, e) <==> Names(a, t, e) || Names(b, t, e)
    ensures DistinctUsers(a) && DistinctUsers(b) && (forall t, e :: !(Names(a, t, e) && Names(b, t, e))) ==>
      DistinctUsers(a + b)
  {
    var c := a + b;
    forall t, e
      ensures Names(c, t, e) <==> Names(a, t, e) || Names(b, t, e)
    {
      if i :| 0 <= i < |a| && a[i].tag == t && a[i].email == e {
        assert c[i] == a[i];
      }
      if i :| 0 <= i < |b| && b[i].tag == t && b[i].email == e {
        assert c[|a| + i] == b[i];
      }
    }
    if DistinctUsers(a) && DistinctUsers(b) && (forall t, e :: !(Names(a, t, e) && Names(b, t, e))) {
      forall i, j | 0 <= i < j < |c|
        ensures c[i].tag != c[j].tag || c[i].email != c[j].email
      {
        if i < |a| <= j {
          assert Names(a, c[i].tag, c[i].email);
          assert Names(b, c[j].tag, c[j].email);
        }
      }
    }
  }

  lemma NamesExtend(a: seq<UserOp>, op: UserOp)
    ensures forall t, e :: Names(a + [op], t, e) <==> Names(a, t, e) || (t == op.tag && e == op.email)
    ensures DistinctUsers(a) && !Names(a, op.tag, op.email) ==> DistinctUsers(a + [op])
  {
    NamesConcat(a, [op]);
    assert [op][0] == op;
  }

  /** removals names exactly the clients of ib that are in emails, once each. */
  ghost predicate RemovesClients(us: seq<UserOp>, ib: InboundConfig, emails: set<string>) {
    && DistinctUsers(us)
    && (forall t, e :: Names(us, t, e) <==> t == ib.tag && e in emails)
    && (forall i :: 0 <= i < |us| ==> us[i] == UserOp(ib.tag, ib.protocol, us[i].email, None))
  }

  /** us adds exactly the clients in emails to ib, once each, with their value in newC. */
  ghost predicate AddsClients(us: seq<UserOp>, ib: InboundConfig, emails: set<string>, newC: map<string, Json>) {
    && DistinctUsers(us)
    && (forall t, e :: Names(us, t, e) <==> t == ib.tag && e in emails)
    && (forall i :: 0 <= i < |us| ==>
          us[i].email in newC && us[i] == UserOp(ib.tag, ib.protocol, us[i].email, Some(newC[us[i].email])))
  }

  // The script, over the part of the old inbounds whose tags are in seen.

  ghost predicate Edited(seen: set<string>, oldBy: map<string, InboundConfig>, newBy: map<string, InboundConfig>,
                         apiTag: string, t: string) {
    t in seen && t in oldBy && t in newBy && FateOf(oldBy[t], newBy, apiTag).EditUsers?
  }

  ghost predicate RemovedTagsFor(tags: seq<string>, seen: set<string>, oldBy: map<string, InboundConfig>,
                                 newBy: map<string, InboundConfig>, apiTag: string) {
    && NoDup(tags)
    && (forall t :: t in tags <==>
          t in seen && t in oldBy
          && (FateOf(oldBy[t], newBy, apiTag).Replace? || FateOf(oldBy[t], newBy, apiTag).Drop?))
  }

  ghost predicate ReaddedFor(ibs: seq<InboundConfig>, seen: set<string>, oldBy: map<string, InboundConfig>,
                             newBy: map<string, InboundConfig>, apiTag: string) {
    && DistinctInbounds(ibs)
    && (forall ib :: ib in ibs <==>
          ib.tag in seen && ib.tag in oldBy && ib.tag in newBy && newBy[ib.tag] == ib
          && FateOf(oldBy[ib.tag], newBy, apiTag).Replace?)
  }

  ghost predicate UserRemovalsFor(us: seq<UserOp>, seen: set<string>, oldBy: map<string, InboundConfig>,
                                  newBy: map<string, InboundConfig>, apiTag: string) {
    && DistinctUsers(us)
    && (forall t, e :: Names(us, t, e) <==>
          Edited(seen, oldBy, newBy, apiTag, t) && e in GoneOrChanged(Clients(oldBy[t]), Clients(newBy[t])))
  }

  ghost predicate UserAdditionsFor(us: seq<UserOp>, seen: set<string>, oldBy: map<string, InboundConfig>,
                                   newBy: map<string, InboundConfig>, apiTag: string) {
    && DistinctUsers(us)
    && (forall t, e :: Names(us, t, e) <==>
          Edited(seen, oldBy, newBy, apiTag, t) && e in NewOrChanged(Clients(oldBy[t]), Clients(newBy[t])))
    && (forall i :: 0 <= i < |us| ==>
          us[i].tag in newBy && us[i].email in Clients(newBy[us[i].tag])
          && us[i].user == Some(Clients(newBy[us[i].tag])[us[i].email]))
  }

  ghost predicate NoDup<T>(s: seq<T>) {
    forall i, j :: 0 <= i < j < |s| ==> s[i] != s[j]
  }

  // ---- the diff methods --------------------------------------------------------

  method SplitSettingsClients(raw: Raw) returns (sp: Option<Split>)
    ensures sp == SplitSettings(raw)
  {
    if !raw.Good? || !raw.value.Obj? {
      return None;
    }
    var settings := raw.value.fields;
    if "clients" !in settings || !settings["clients"].Arr? {
      return None;
    }
    var items := settings["clients"].items;
    var clients: map<string, Json> := map[];
    for i := 0 to |items|
      invariant IndexClients(items[..i]) == Some(clients)
    {
      assert items[..i+1][..i] == items[..i];
      var obj := items[i];
      if !obj.Obj? || EmailOf(obj) == "" || EmailOf(obj) in clients {
        IndexClientsPrefix(items, i + 1);
        return None;
      }
      clients := clients[EmailOf(obj) := obj];
    }
    assert items[..|items|] == items;
    settings := settings - {"clients"};
    return Some(Split(clients, settings));
  }

  method IndexInbounds(inbounds: seq<InboundConfig>) returns (byTag: Option<map<string, InboundConfig>>)
    ensures byTag == InboundsByTag(inbounds)
  {
    var m: map<string, InboundConfig> := map[];
    for i := 0 to |inbounds|
      invariant InboundsByTag(inbounds[..i]) == Some(m)
    {
      assert inbounds[..i+1][..i] == inbounds[..i];
      var ib := inbounds[i];
      if ib.tag == "" || ib.tag in m {
        InboundsByTagPrefix(inbounds, i + 1);
        return None;
      }
      m := m[ib.tag := ib];
    }
    assert inbounds[..|inbounds|] == inbounds;
    return Some(m);
  }

  /** Two same-tag inbounds: false leaves diff alone, true appends the edits of their client lists. */
  method DiffInboundUsers(a: InboundConfig, b: InboundConfig, diff: Diff)
    returns (ok: bool, ghost removals: seq<UserOp>, ghost additions: seq<UserOp>)
    modifies diff
    ensures ok <==> UserDiffable(a, b)
    ensures !ok ==> diff.View() == old(diff.View())
    ensures ok ==> RemovesClients(removals, a, GoneOrChanged(Clients(a), Clients(b)))
    ensures ok ==> AddsClients(additions, a, NewOrChanged(Clients(a), Clients(b)), Clients(b))
    ensures ok ==> diff.View() == old(diff.View()).(
      removedUsers := old(diff.removedUsers) + removals, addedUsers := old(diff.addedUsers) + additions)
  {
    removals, additions := [], [];
    if a.port != b.port || a.protocol != b.protocol || a.tag != b.tag {
      return false, removals, additions;
    }
    if a.protocol !in UserDiffableProtocols {
      return false, removals, additions;
    }
    if !RawEqualNormalized(a.listen, b.listen)
       || !RawEqualNormalized(a.streamSettings, b.streamSettings)
       || !RawEqualNormalized(a.sniffing, b.sniffing) {
      return false, removals, additions;
    }
    var oldSplit := SplitSettingsClients(a.settings);
    if oldSplit.None? {
      return false, removals, additions;
    }
    var newSplit := SplitSettingsClients(b.settings);
    if newSplit.None? {
      return false, removals, additions;
    }
    if oldSplit.value.rest != newSplit.value.rest {
      return false, removals, additions;
    }
    var oldC, newC := oldSplit.value.clients, newSplit.value.clients;
    removals, additions := EditOldClients(a, oldC, newC, diff);
    ghost var more := AddNewClients(a, oldC, newC, diff);
    NamesConcat(additions, more);
    assert old(diff.addedUsers) + additions + more == old(diff.addedUsers) + (additions + more);
    additions := additions + more;
    return true, removals, additions;
  }

  function Changed(oldC: map<string, Json>, newC: map<string, Json>): set<string> {
    set e | e in oldC && e in newC && newC[e] != oldC[e]
  }

  /** First loop of the user diff: clients gone or changed, in whatever order the map is walked. */
  method EditOldClients(ib: InboundConfig, oldC: map<string, Json>, newC: map<string, Json>, diff: Diff)
    returns (ghost removals: seq<UserOp>, ghost additions: seq<UserOp>)
    modifies diff
    ensures RemovesClients(removals, ib, GoneOrChanged(oldC, newC))
    ensures AddsClients(additions, ib, Changed(oldC, newC), newC)
    ensures diff.View() == old(diff.View()).(
      removedUsers := old(diff.removedUsers) + removals, addedUsers := old(diff.addedUsers) + additions)
  {
    removals, additions := [], [];
    var todo := oldC.Keys;
    while todo != {}
      invariant todo <= oldC.Keys
      invariant RemovesClients(removals, ib, GoneOrChanged(oldC, newC) - todo)
      invariant AddsClients(additions, ib, Changed(oldC, newC) - todo, newC)
      invariant diff.View() == old(diff.View()).(
        removedUsers := old(diff.removedUsers) + removals, addedUsers := old(diff.addedUsers) + additions)
    {
      var email :| email in todo;
      todo := todo - {email};
      if email in newC && newC[email] == oldC[email] {
        continue;
      }
      var removal := UserOp(ib.tag, ib.protocol, email, None);
      diff.removedUsers := diff.removedUsers + [removal];
      NamesExtend(removals, removal);
      removals := removals + [removal];
      if email in newC {
        var addition := UserOp(ib.tag, ib.protocol, email, Some(newC[email]));
        diff.addedUsers := diff.addedUsers + [addition];
        NamesExtend(additions, addition);
        additions := additions + [addition];
      }
    }
  }

  /** Second loop of the user diff: clients the old settings did not have. */
  method AddNewClients(ib: InboundConfig, oldC: map<string, Json>, newC: map<string, Json>, diff: Diff)
    returns (ghost additions: seq<UserOp>)
    modifies diff
    ensures AddsClients(additions, ib, newC.Keys - oldC.Keys, newC)
    ensures diff.View() == old(diff.View()).(addedUsers := old(diff.addedUsers) + additions)
  {
    additions := [];
    var todo := newC.Keys;
    while todo != {}
      invariant todo <= newC.Keys
      invariant AddsClients(additions, ib, newC.Keys - oldC.Keys - todo, newC)
      invariant diff.View() == old(diff.View()).(addedUsers := old(diff.addedUsers) + additions)
    {
      var email :| email in todo;
      todo := todo - {email};
      if email !in oldC {
        var addition := UserOp(ib.tag, ib.protocol, email, Some(newC[email]));
        diff.addedUsers := diff.addedUsers + [addition];
        NamesExtend(additions, addition);
        additions := additions + [addition];
      }
    }
  }

  /** The decision for one running inbound: false refuses, otherwise its operations are appended. */
  method DiffOldInbound(ib: InboundConfig, newBy: map<string, InboundConfig>, apiTag: string, diff: Diff)
    returns (ok: bool, ghost removals: seq<UserOp>, ghost additions: seq<UserOp>)
    modifies diff
    ensures ok <==> !FateOf(ib, newBy, apiTag).Refuse?
    ensures ok && FateOf(ib, newBy, apiTag).EditUsers? ==>
      && RemovesClients(removals, ib, GoneOrChanged(Clients(ib), Clients(newBy[ib.tag])))
      && AddsClients(additions, ib, NewOrChanged(Clients(ib), Clients(newBy[ib.tag])), Clients(newBy[ib.tag]))
    ensures ok && !FateOf(ib, newBy, apiTag).EditUsers? ==> removals == [] && additions == []
    ensures ok ==> diff.View() == old(diff.View()).(
      removedInboundTags := old(diff.removedInboundTags) + TagOut(ib, newBy, apiTag),
      addedInbounds := old(diff.addedInbounds) + BackIn(ib, newBy, apiTag),
      removedUsers := old(diff.removedUsers) + removals,
      addedUsers := old(diff.addedUsers) + additions)
  {
    removals, additions := [], [];
    if ib.tag in newBy && InboundEqualNormalized(ib, newBy[ib.tag]) {
      return true, removals, additions;
    }
    if ib.tag == apiTag || ib.tag == "api" {
      return false, removals, additions;
    }
    if ib.tag in newBy && (HasReverseClient(ib.settings) || HasReverseClient(newBy[ib.tag].settings)) {
      return false, removals, additions;
    }
    if ib.tag in newBy {
      ok, removals, additions := DiffInboundUsers(ib, newBy[ib.tag], diff);
      if ok {
        return;
      }
      removals, additions := [], [];
    }
    diff.removedInboundTags := diff.removedInboundTags + [ib.tag];
    if ib.tag in newBy {
      if !Marshals(newBy[ib.tag]) {
        return false, removals, additions;
      }
      diff.addedInbounds := diff.addedInbounds + [newBy[ib.tag]];
    }
    return true, removals, additions;
  }

  function TagOut(ib: InboundConfig, newBy: map<string, InboundConfig>, apiTag: string): seq<string> {
    var fate := FateOf(ib, newBy, apiTag);
    if fate.Replace? || fate.Drop? then [ib.tag] else []
  }

  function BackIn(ib: InboundConfig, newBy: map<string, InboundConfig>, apiTag: string): seq<InboundConfig> {
    if FateOf(ib, newBy, apiTag).Replace? then [newBy[ib.tag]] else []
  }

  /** Fills diff with inbound removals, additions and user edits; false forces a restart. */
  method DiffInbounds(olds: seq<InboundConfig>, news: seq<InboundConfig>, api: Raw, diff: Diff)
    returns (ok: bool)
    requires diff.View() == EmptyEdits
    modifies diff
    ensures ok <==> InboundsAppliable(olds, news, ApiTag(api))
    ensures ok ==> InboundEdits(diff.View(), InboundsByTag(olds).value, InboundsByTag(news).value, ApiTag(api))
    ensures ok ==> diff.removedOutboundTags == [] && diff.addedOutbounds == [] && diff.routingConfig.None?
  {
    var oldIndex := IndexInbounds(olds);
    if oldIndex.None? {
      return false;
    }
    var newIndex := IndexInbounds(news);
    if newIndex.None? {
      return false;
    }
    InboundsByTagSound(news);
    ok := DiffOldInbounds(olds, oldIndex.value, newIndex.value, ApiTag(api), diff);
    if !ok {
      return false;
    }
    ok := AddNewInbounds(news, newIndex.value, oldIndex.value, ApiTag(api), diff);
  }

  lemma AppendTag(tags: seq<string>, seen: set<string>, ib: InboundConfig, oldBy: map<string, InboundConfig>,
                  newBy: map<string, InboundConfig>, apiTag: string)
    requires RemovedTagsFor(tags, seen, oldBy, newBy, apiTag)
    requires ib.tag in oldBy && oldBy[ib.tag] == ib && ib.tag !in seen
    ensures RemovedTagsFor(tags + TagOut(ib, newBy, apiTag), seen + {ib.tag}, oldBy, newBy, apiTag)
  {
  }

  lemma AppendBack(ibs: seq<InboundConfig>, seen: set<string>, ib: InboundConfig, oldBy: map<string, InboundConfig>,
                   newBy: map<string, InboundConfig>, apiTag: string)
    requires ReaddedFor(ibs, seen, oldBy, newBy, apiTag)
    requires ib.tag in oldBy && oldBy[ib.tag] == ib && ib.tag !in seen
    requires forall t :: t in newBy ==> newBy[t].tag == t
    ensures ReaddedFor(ibs + BackIn(ib, newBy, apiTag), seen + {ib.tag}, oldBy, newBy, apiTag)
  {
    forall k | 0 <= k < |ibs|
      ensures ibs[k].tag in seen
    {
      assert ibs[k] in ibs;
    }
  }

  lemma AppendUsers(rs: seq<UserOp>, adds: seq<UserOp>, removals: seq<UserOp>, additions: seq<UserOp>,
                    seen: set<string>, ib: InboundConfig, oldBy: map<string, InboundConfig>,
                    newBy: map<string, InboundConfig>, apiTag: string)
    requires UserRemovalsFor(rs, seen, oldBy, newBy, apiTag) && UserAdditionsFor(adds, seen, oldBy, newBy, apiTag)
    requires ib.tag in oldBy && oldBy[ib.tag] == ib && ib.tag !in seen
    requires FateOf(ib, newBy, apiTag).EditUsers? ==>
      && RemovesClients(removals, ib, GoneOrChanged(Clients(ib), Clients(newBy[ib.tag])))
      && AddsClients(additions, ib, NewOrChanged(Clients(ib), Clients(newBy[ib.tag])), Clients(newBy[ib.tag]))
    requires !FateOf(ib, newBy, apiTag).EditUsers? ==> removals == [] && additions == []
    ensures UserRemovalsFor(rs + removals, seen + {ib.tag}, oldBy, newBy, apiTag)
    ensures UserAdditionsFor(adds + additions, seen + {ib.tag}, oldBy, newBy, apiTag)
  {
    NamesConcat(rs, removals);
    NamesConcat(adds, additions);
  }

  /** What the first loop has appended once the tags in seen are dealt with. */
  ghost predicate OldDone(ed: Edits, seen: set<string>, oldBy: map<string, InboundConfig>,
                          newBy: map<string, InboundConfig>, apiTag: string) {
    && RemovedTagsFor(ed.removedInboundTags, seen, oldBy, newBy, apiTag)
    && ReaddedFor(ed.addedInbounds, seen, oldBy, newBy, apiTag)
    && UserRemovalsFor(ed.removedUsers, seen, oldBy, newBy, apiTag)
    && UserAdditionsFor(ed.addedUsers, seen, oldBy, newBy, apiTag)
    && ed.removedOutboundTags == [] && ed.addedOutbounds == [] && ed.routingConfig.None?
  }

  lemma NothingDone(oldBy: map<string, InboundConfig>, newBy: map<string, InboundConfig>, apiTag: string)
    ensures OldDone(EmptyEdits, {}, oldBy, newBy, apiTag)
  {
    hide FateOf;
  }

  lemma DoneNext(before: Edits, after: Edits, removals: seq<UserOp>, additions: seq<UserOp>, seen: set<string>,
                 ib: InboundConfig, oldBy: map<string, InboundConfig>, newBy: map<string, InboundConfig>,
                 apiTag: string)
    requires OldDone(before, seen, oldBy, newBy, apiTag)
    requires ib.tag in oldBy && oldBy[ib.tag] == ib && ib.tag !in seen
    requires forall t :: t in newBy ==> newBy[t].tag == t
    requires FateOf(ib, newBy, apiTag).EditUsers? ==>
      && RemovesClients(removals, ib, GoneOrChanged(Clients(ib), Clients(newBy[ib.tag])))
      && AddsClients(additions, ib, NewOrChanged(Clients(ib), Clients(newBy[ib.tag])), Clients(newBy[ib.tag]))
    requires !FateOf(ib, newBy, apiTag).EditUsers? ==> removals == [] && additions == []
    requires after == before.(
      removedInboundTags := before.removedInboundTags + TagOut(ib, newBy, apiTag),
      addedInbounds := before.addedInbounds + BackIn(ib, newBy, apiTag),
      removedUsers := before.removedUsers + removals, addedUsers := before.addedUsers + additions)
    ensures OldDone(after, seen + {ib.tag}, oldBy, newBy, apiTag)
  {
    hide FateOf, RemovedTagsFor, ReaddedFor, UserRemovalsFor, UserAdditionsFor, TagOut, BackIn;
    AppendTag(before.removedInboundTags, seen, ib, oldBy, newBy, apiTag);
    AppendBack(before.addedInbounds, seen, ib, oldBy, newBy, apiTag);
    AppendUsers(before.removedUsers, before.addedUsers, removals, additions, seen, ib, oldBy, newBy, apiTag);
  }

  /** The tags of the first i inbounds. */
  ghost function TagsBefore(ibs: seq<InboundConfig>, i: nat): set<string>
    requires i <= |ibs|
  {
    set k | 0 <= k < i :: ibs[k].tag
  }

  lemma TagsBeforeNext(ibs: seq<InboundConfig>, i: nat)
    requires i < |ibs| && DistinctInbounds(ibs)
    ensures ibs[i].tag !in TagsBefore(ibs, i)
    ensures TagsBefore(ibs, i + 1) == TagsBefore(ibs, i) + {ibs[i].tag}
  {
  }

  lemma AllTags(ibs: seq<InboundConfig>, m: map<string, InboundConfig>)
    requires Indexes(m, ibs)
    ensures TagsBefore(ibs, 0) == {} && TagsBefore(ibs, |ibs|) == m.Keys
    ensures forall i :: 0 <= i < |ibs| ==> ibs[i].tag in m && m[ibs[i].tag] == ibs[i]
  {
    forall t | t in m
      ensures t in TagsBefore(ibs, |ibs|)
    {
      assert m[t] in ibs;
    }
  }

  method DiffOldInbounds(olds: seq<InboundConfig>, ghost oldBy: map<string, InboundConfig>,
                         newBy: map<string, InboundConfig>, apiTag: string, diff: Diff)
    returns (ok: bool)
    requires InboundsByTag(olds) == Some(oldBy) && diff.View() == EmptyEdits
    requires forall t :: t in newBy ==> newBy[t].tag == t
    modifies diff
    ensures ok <==> NoneRefused(oldBy, newBy, apiTag)
    ensures ok ==> OldDone(diff.View(), oldBy.Keys, oldBy, newBy, apiTag)
  {
    hide OldDone, FateOf, InboundsByTag, Indexes, DistinctInbounds, TagsBefore, RemovesClients, AddsClients;
    InboundsByTagSound(olds);
    AllTags(olds, oldBy);
    NothingDone(oldBy, newBy, apiTag);
    for i := 0 to |olds|
      invariant forall t :: t in TagsBefore(olds, i) ==> t in oldBy && !FateOf(oldBy[t], newBy, apiTag).Refuse?
      invariant OldDone(diff.View(), TagsBefore(olds, i), oldBy, newBy, apiTag)
    {
      var ib := olds[i];
      TagsBeforeNext(olds, i);
      ghost var before := diff.View();
      var fine, removals, additions := DiffOldInbound(ib, newBy, apiTag, diff);
      if !fine {
        return false;
      }
      DoneNext(before, diff.View(), removals, additions, TagsBefore(olds, i), ib, oldBy, newBy, apiTag);
    }
    return true;
  }

  method AddNewInbounds(news: seq<InboundConfig>, ghost newBy: map<string, InboundConfig>,
                        oldBy: map<string, InboundConfig>, apiTag: string, diff: Diff)
    returns (ok: bool)
    requires InboundsByTag(news) == Some(newBy)
    requires ReaddedFor(diff.addedInbounds, oldBy.Keys, oldBy, newBy, apiTag)
    modifies diff
    ensures ok <==> IntroductionsFine(newBy, oldBy, apiTag)
    ensures diff.View() == old(diff.View()).(addedInbounds := diff.addedInbounds)
    ensures ok ==> AddedFor(diff.addedInbounds, newBy.Keys, oldBy, newBy, apiTag)
  {
    hide FateOf, Marshals, InboundsByTag, Indexes, DistinctInbounds, TagsBefore, AddedFor, ReaddedFor;
    InboundsByTagSound(news);
    AllTags(news, newBy);
    NothingAdded(diff.addedInbounds, oldBy, newBy, apiTag);
    for i := 0 to |news|
      invariant forall t :: t in TagsBefore(news, i) && t in newBy && t !in oldBy ==>
        t != apiTag && t != "api" && Marshals(newBy[t])
      invariant AddedFor(diff.addedInbounds, TagsBefore(news, i), oldBy, newBy, apiTag)
      invariant diff.View() == old(diff.View()).(addedInbounds := diff.addedInbounds)
    {
      var ib := news[i];
      TagsBeforeNext(news, i);
      AppendNew(diff.addedInbounds, TagsBefore(news, i), ib, oldBy, newBy, apiTag);
      if ib.tag in oldBy {
        continue;
      }
      if ib.tag == apiTag || ib.tag == "api" {
        return false;
      }
      if !Marshals(ib) {
        return false;
      }
      diff.addedInbounds := diff.addedInbounds + [ib];
    }
    return true;
  }

  lemma NothingAdded(ibs: seq<InboundConfig>, oldBy: map<string, InboundConfig>, newBy: map<string, InboundConfig>,
                     apiTag: string)
    requires ReaddedFor(ibs, oldBy.Keys, oldBy, newBy, apiTag)
    ensures AddedFor(ibs, {}, oldBy, newBy, apiTag)
  {
    hide FateOf;
  }

  /** Everything added: replacements of old inbounds and, among the seen tags, inbounds with a new tag. */
  ghost predicate AddedFor(ibs: seq<InboundConfig>, seen: set<string>, oldBy: map<string, InboundConfig>,
                           newBy: map<string, InboundConfig>, apiTag: string) {
    && DistinctInbounds(ibs)
    && (forall ib :: ib in ibs <==>
          && ib.tag in newBy && newBy[ib.tag] == ib
          && if ib.tag in oldBy then FateOf(oldBy[ib.tag], newBy, apiTag).Replace? else ib.tag in seen)
  }

  lemma AppendNew(ibs: seq<InboundConfig>, seen: set<string>, ib: InboundConfig, oldBy: map<string, InboundConfig>,
                  newBy: map<string, InboundConfig>, apiTag: string)
    requires AddedFor(ibs, seen, oldBy, newBy, apiTag)
    requires ib.tag in newBy && newBy[ib.tag] == ib && ib.tag !in seen
    ensures AddedFor(if ib.tag in oldBy then ibs else ibs + [ib], seen + {ib.tag}, oldBy, newBy, apiTag)
  {
    hide FateOf;
    if ib.tag !in oldBy {
      forall k | 0 <= k < |ibs|
        ensures ibs[k].tag != ib.tag
      {
        assert ibs[k] in ibs;
      }
    }
  }

  predicate NoneRefused(oldBy: map<string, InboundConfig>, newBy: map<string, InboundConfig>, apiTag: string) {
    forall t :: t in oldBy ==> !FateOf(oldBy[t], newBy, apiTag).Refuse?
  }

  predicate IntroductionsFine(newBy: map<string, InboundConfig>, oldBy: map<string, InboundConfig>, apiTag: string) {
    forall t :: t in newBy && t !in oldBy ==> t != apiTag && t != "api" && Marshals(newBy[t])
  }

  predicate InboundsAppliable(olds: seq<InboundConfig>, news: seq<InboundConfig>, apiTag: string) {
    && InboundsByTag(olds).Some? && InboundsByTag(news).Some?
    && NoneRefused(InboundsByTag(olds).value, InboundsByTag(news).value, apiTag)
    && IntroductionsFine(InboundsByTag(news).value, InboundsByTag(olds).value, apiTag)
  }

  /** The inbound part of the script: each operation exactly once, in whatever order. */
  ghost predicate InboundEdits(ed: Edits, oldBy: map<string, InboundConfig>, newBy: map<string, InboundConfig>,
                               apiTag: string) {
    && RemovedTagsFor(ed.removedInboundTags, oldBy.Keys, oldBy, newBy, apiTag)
    && AddedFor(ed.addedInbounds, newBy.Keys, oldBy, newBy, apiTag)
    && UserRemovalsFor(ed.removedUsers, oldBy.Keys, oldBy, newBy, apiTag)
    && UserAdditionsFor(ed.addedUsers, oldBy.Keys, oldBy, newBy, apiTag)
  }

  // ---- outbounds and routing ---------------------------------------------------

  predicate OutboundsAppliable(a: Raw, b: Raw) {
    && ParseOutbounds(a).Some? && ParseOutbounds(b).Some?
    && var olds, news := ParseOutbounds(a).value, ParseOutbounds(b).value;
       && (olds == [] <==> news == [])
       && (olds != [] ==> olds[0] == news[0])
  }

  ghost predicate DistinctOutbounds(es: seq<OutboundEntry>) {
    forall i, j :: 0 <= i < j < |es| ==> es[i].tag != es[j].tag
  }

  predicate SameAt(oldT: map<string, Json>, newT: map<string, Json>, t: string) {
    t in oldT && t in newT && oldT[t] == newT[t]
  }

  ghost predicate RemovedOutboundsFor(tags: seq<string>, seen: set<string>,
                                      oldT: map<string, Json>, newT: map<string, Json>) {
    && NoDup(tags)
    && (forall t :: t in tags <==> t in seen && t in oldT && !SameAt(oldT, newT, t))
  }

  /** Added entries: changed ones among the seen old tags, unknown ones among the seen new tags. */
  ghost predicate AddedOutboundsFor(es: seq<OutboundEntry>, seenOld: set<string>, seenNew: set<string>,
                                    oldT: map<string, Json>, newT: map<string, Json>) {
    && DistinctOutbounds(es)
    && (forall e :: e in es <==>
          && e.tag in newT && newT[e.tag] == e.value
          && if e.tag in oldT then e.tag in seenOld && !SameAt(oldT, newT, e.tag) else e.tag in seenNew)
  }

  ghost predicate OutboundEdits(ed: Edits, oldT: map<string, Json>, newT: map<string, Json>) {
    && RemovedOutboundsFor(ed.removedOutboundTags, oldT.Keys, oldT, newT)
    && AddedOutboundsFor(ed.addedOutbounds, oldT.Keys, newT.Keys, oldT, newT)
  }

  method OutboundIndex(es: seq<OutboundEntry>) returns (byTag: map<string, Json>)
    ensures byTag == OutboundTable(es)
  {
    byTag := map[];
    for i := 0 to |es|
      invariant byTag == OutboundTable(es[..i])
    {
      assert es[..i+1][..i] == es[..i];
      byTag := byTag[es[i].tag := es[i].value];
    }
    assert es[..|es|] == es;
  }

  lemma EntriesNext(items: seq<Json>, i: nat, es: seq<OutboundEntry>)
    requires i < |items| && EntriesOf(items[..i]) == Some(es)
    ensures var tag := StringField(items[i], "tag");
      EntriesOf(items[..i + 1])
      == if tag.None? || tag.value == "" || tag.value in OutTagsBefore(es, |es|) then None
         else Some(es + [OutboundEntry(tag.value, items[i])])
  {
    hide StringField;
    assert items[..i + 1][..i] == items[..i];
  }

  lemma MoreOutTags(es: seq<OutboundEntry>, e: OutboundEntry)
    ensures OutTagsBefore(es + [e], |es| + 1) == OutTagsBefore(es, |es|) + {e.tag}
  {
    var more := es + [e];
    assert forall k :: 0 <= k < |es| ==> more[k] == es[k];
    assert more[|es|] == e;
    forall t | t in OutTagsBefore(es, |es|)
      ensures t in OutTagsBefore(more, |es| + 1)
    {
      var k :| 0 <= k < |es| && es[k].tag == t;
      assert more[k].tag == t;
    }
    assert more[|es|].tag in OutTagsBefore(more, |es| + 1);
  }

  method ReadOutbounds(raw: Raw) returns (entries: Option<seq<OutboundEntry>>)
    ensures entries == ParseOutbounds(raw)
  {
    if raw.Empty? {
      return Some([]);
    }
    if raw.Bad? || !(raw.value.Null? || raw.value.Arr?) {
      return None;
    }
    if raw.value.Null? {
      return Some([]);
    }
    var items := raw.value.items;
    var es: seq<OutboundEntry> := [];
    var seen: set<string> := {};
    for i := 0 to |items|
      invariant EntriesOf(items[..i]) == Some(es) && seen == OutTagsBefore(es, |es|)
    {
      var tag := StringField(items[i], "tag");
      EntriesNext(items, i, es);
      if tag.None? || tag.value == "" || tag.value in seen {
        EntriesPrefix(items, i + 1);
        return None;
      }
      MoreOutTags(es, OutboundEntry(tag.value, items[i]));
      seen := seen + {tag.value};
      es := es + [OutboundEntry(tag.value, items[i])];
    }
    assert items[..|items|] == items;
    return Some(es);
  }

  method DiffOutbounds(a: Raw, b: Raw, diff: Diff) returns (ok: bool)
    requires diff.removedOutboundTags == [] && diff.addedOutbounds == []
    modifies diff
    ensures ok <==> OutboundsAppliable(a, b)
    ensures ok ==> OutboundEdits(diff.View(), OutboundTable(ParseOutbounds(a).value),
      OutboundTable(ParseOutbounds(b).value))
    ensures diff.View() == old(diff.View()).(
      removedOutboundTags := diff.removedOutboundTags, addedOutbounds := diff.addedOutbounds)
  {
    var parsedOld := ReadOutbounds(a);
    if parsedOld.None? {
      return false;
    }
    var parsedNew := ReadOutbounds(b);
    if parsedNew.None? {
      return false;
    }
    var olds, news := parsedOld.value, parsedNew.value;
    if (|olds| == 0) != (|news| == 0) {
      return false;
    }
    if |olds| > 0 {
      if olds[0].tag != news[0].tag || olds[0].value != news[0].value {
        return false;
      }
    }
    var oldT := OutboundIndex(olds);
    var newT := OutboundIndex(news);
    ParsedDistinct(a);
    ParsedDistinct(b);
    RetireOutbounds(olds, oldT, newT, diff);
    AddNewOutbounds(news, oldT, newT, diff);
    return true;
  }

  /** The tags of the first i outbounds. */
  ghost function OutTagsBefore(es: seq<OutboundEntry>, i: nat): set<string>
    requires i <= |es|
  {
    set k | 0 <= k < i :: es[k].tag
  }

  lemma OutTagsNext(es: seq<OutboundEntry>, i: nat)
    requires i < |es| && DistinctTags(es)
    ensures es[i].tag !in OutTagsBefore(es, i)
    ensures OutTagsBefore(es, i + 1) == OutTagsBefore(es, i) + {es[i].tag}
  {
  }

  lemma AllOutTags(es: seq<OutboundEntry>)
    requires DistinctTags(es)
    ensures OutTagsBefore(es, 0) == {} && OutTagsBefore(es, |es|) == OutboundTable(es).Keys
    ensures forall i :: 0 <= i < |es| ==> es[i].tag in OutboundTable(es) && OutboundTable(es)[es[i].tag] == es[i].value
  {
    hide OutboundTable;
    OutboundTableAt(es);
  }

  /** Removals and replacements once the old tags in seen are dealt with. */
  ghost predicate OldOutboundsDone(tags: seq<string>, es: seq<OutboundEntry>, seen: set<string>,
                                   oldT: map<string, Json>, newT: map<string, Json>) {
    RemovedOutboundsFor(tags, seen, oldT, newT) && AddedOutboundsFor(es, seen, {}, oldT, newT)
  }

  lemma NoOutboundsDone(oldT: map<string, Json>, newT: map<string, Json>)
    ensures OldOutboundsDone([], [], {}, oldT, newT)
  {
  }

  lemma OldOutboundNext(tags: seq<string>, es: seq<OutboundEntry>, seen: set<string>, t: string,
                        oldT: map<string, Json>, newT: map<string, Json>)
    requires OldOutboundsDone(tags, es, seen, oldT, newT) && t in oldT && t !in seen
    ensures SameAt(oldT, newT, t) ==> OldOutboundsDone(tags, es, seen + {t}, oldT, newT)
    ensures t !in newT ==> OldOutboundsDone(tags + [t], es, seen + {t}, oldT, newT)
    ensures t in newT && !SameAt(oldT, newT, t) ==>
      OldOutboundsDone(tags + [t], es + [OutboundEntry(t, newT[t])], seen + {t}, oldT, newT)
  {
    TagNext(tags, seen, t, oldT, newT);
    EntryNext(es, seen, t, oldT, newT);
  }

  lemma TagNext(tags: seq<string>, seen: set<string>, t: string, oldT: map<string, Json>, newT: map<string, Json>)
    requires RemovedOutboundsFor(tags, seen, oldT, newT) && t in oldT && t !in seen
    ensures RemovedOutboundsFor(if SameAt(oldT, newT, t) then tags else tags + [t], seen + {t}, oldT, newT)
  {
  }

  lemma EntryNext(es: seq<OutboundEntry>, seen: set<string>, t: string, oldT: map<string, Json>,
                  newT: map<string, Json>)
    requires AddedOutboundsFor(es, seen, {}, oldT, newT) && t in oldT && t !in seen
    ensures AddedOutboundsFor(if SameAt(oldT, newT, t) || t !in newT then es else es + [OutboundEntry(t, newT[t])],
                              seen + {t}, {}, oldT, newT)
  {
    forall k | 0 <= k < |es|
      ensures es[k].tag != t
    {
      assert es[k] in es;
    }
  }

  lemma NewOutboundNext(es: seq<OutboundEntry>, seen: set<string>, e: OutboundEntry,
                        oldT: map<string, Json>, newT: map<string, Json>)
    requires AddedOutboundsFor(es, oldT.Keys, seen, oldT, newT)
    requires e.tag in newT && newT[e.tag] == e.value && e.tag !in seen
    ensures AddedOutboundsFor(if e.tag in oldT then es else es + [e], oldT.Keys, seen + {e.tag}, oldT, newT)
  {
    if e.tag !in oldT {
      forall k | 0 <= k < |es|
        ensures es[k].tag != e.tag
      {
        assert es[k] in es;
      }
    }
  }

  method RetireOutbounds(olds: seq<OutboundEntry>, oldT: map<string, Json>, newT: map<string, Json>, diff: Diff)
    requires DistinctTags(olds) && oldT == OutboundTable(olds)
    requires diff.removedOutboundTags == [] && diff.addedOutbounds == []
    modifies diff
    ensures OldOutboundsDone(diff.removedOutboundTags, diff.addedOutbounds, oldT.Keys, oldT, newT)
    ensures diff.View() == old(diff.View()).(
      removedOutboundTags := diff.removedOutboundTags, addedOutbounds := diff.addedOutbounds)
  {
    hide OutboundTable, OldOutboundsDone, OutTagsBefore, DistinctTags;
    AllOutTags(olds);
    NoOutboundsDone(oldT, newT);
    for i := 0 to |olds|
      invariant OldOutboundsDone(diff.removedOutboundTags, diff.addedOutbounds, OutTagsBefore(olds, i), oldT, newT)
      invariant diff.View() == old(diff.View()).(
        removedOutboundTags := diff.removedOutboundTags, addedOutbounds := diff.addedOutbounds)
    {
      var e := olds[i];
      OutTagsNext(olds, i);
      OldOutboundNext(diff.removedOutboundTags, diff.addedOutbounds, OutTagsBefore(olds, i), e.tag, oldT, newT);
      if e.tag in newT && newT[e.tag] == e.value {
        continue;
      }
      diff.removedOutboundTags := diff.removedOutboundTags + [e.tag];
      if e.tag in newT {
        diff.addedOutbounds := diff.addedOutbounds + [OutboundEntry(e.tag, newT[e.tag])];
      }
    }
  }

  method AddNewOutbounds(news: seq<OutboundEntry>, oldT: map<string, Json>, newT: map<string, Json>, diff: Diff)
    requires DistinctTags(news) && newT == OutboundTable(news)
    requires AddedOutboundsFor(diff.addedOutbounds, oldT.Keys, {}, oldT, newT)
    modifies diff
    ensures AddedOutboundsFor(diff.addedOutbounds, oldT.Keys, newT.Keys, oldT, newT)
    ensures diff.View() == old(diff.View()).(addedOutbounds := diff.addedOutbounds)
  {
    hide OutboundTable, AddedOutboundsFor, OutTagsBefore, DistinctTags;
    AllOutTags(news);
    for i := 0 to |news|
      invariant AddedOutboundsFor(diff.addedOutbounds, oldT.Keys, OutTagsBefore(news, i), oldT, newT)
      invariant diff.View() == old(diff.View()).(addedOutbounds := diff.addedOutbounds)
    {
      var e := news[i];
      OutTagsNext(news, i);
      NewOutboundNext(diff.addedOutbounds, OutTagsBefore(news, i), e, oldT, newT);
      if e.tag !in oldT {
        diff.addedOutbounds := diff.addedOutbounds + [e];
      }
    }
  }

  /** The same text, or two sections that decode and differ in rules and balancers only. */
  ghost predicate RoutingAppliable(a: Raw, b: Raw) {
    a == b || (a.Good? && b.Good? && SameButReloadable(a.value, b.value))
  }

  /** What routingWithoutReloadable leaves is the same exactly for such sections. */
  lemma RestDecides(a: Raw, b: Raw)
    requires !a.Empty? && !b.Empty?
    ensures RoutingRest(a).Some? && RoutingRest(b).Some? && RoutingRest(a) == RoutingRest(b) <==>
      a.Good? && b.Good? && SameButReloadable(a.value, b.value)
  {
    if a.Good? && b.Good? && a.value.Obj? && b.value.Obj? {
      var x, y := a.value.fields - {"rules", "balancers"}, b.value.fields - {"rules", "balancers"};
      if SameButReloadable(a.value, b.value) {
        forall k
          ensures k in x <==> k in y
          ensures k in x ==> x[k] == y[k]
        {
          if k != "rules" && k != "balancers" {
            assert Field(a.value, k) == Field(b.value, k);
          }
        }
        assert x == y;
      }
      if x == y {
        forall k | k != "rules" && k != "balancers"
          ensures Field(a.value, k) == Field(b.value, k)
        {
          assert k in x <==> k in y;
        }
      }
    }
  }

  method DiffRouting(a: Raw, b: Raw, diff: Diff) returns (ok: bool)
    requires diff.routingConfig.None?
    modifies diff
    ensures ok <==> RoutingAppliable(a, b)
    ensures ok ==> diff.routingConfig == (if a == b then None else Some(b))
    ensures diff.View() == old(diff.View()).(routingConfig := diff.routingConfig)
  {
    if a == b {
      return true;
    }
    if a.Empty? || b.Empty? {
      return false;
    }
    RestDecides(a, b);
    if RoutingRest(a).None? || RoutingRest(b).None? || RoutingRest(a) != RoutingRest(b) {
      return false;
    }
    diff.routingConfig := Some(b);
    return true;
  }

  // ---- the whole diff ---------------------------------------------------------------------

  /** Every section without a reload API means the same on both sides. */
  predicate FixedSame(a: Config, b: Config) {
    && MeaningOf(a.log) == MeaningOf(b.log) && MeaningOf(a.dns) == MeaningOf(b.dns)
    && MeaningOf(a.transport) == MeaningOf(b.transport) && MeaningOf(a.policy) == MeaningOf(b.policy)
    && MeaningOf(a.api) == MeaningOf(b.api) && MeaningOf(a.stats) == MeaningOf(b.stats)
    && MeaningOf(a.reverse) == MeaningOf(b.reverse) && MeaningOf(a.fakeDns) == MeaningOf(b.fakeDns)
    && MeaningOf(a.observatory) == MeaningOf(b.observatory)
    && MeaningOf(a.burstObservatory) == MeaningOf(b.burstObservatory)
    && MeaningOf(a.metrics) == MeaningOf(b.metrics) && MeaningOf(a.geodata) == MeaningOf(b.geodata)
  }

  lemma SectionsAre(c: Config, s: seq<Raw>)
    requires s == StaticSections(c)
    ensures |s| == 12 && s[0] == c.log && s[1] == c.dns && s[2] == c.transport && s[3] == c.policy && s[4] == c.api
    ensures s[5] == c.stats && s[6] == c.reverse && s[7] == c.fakeDns && s[8] == c.observatory
    ensures s[9] == c.burstObservatory && s[10] == c.metrics && s[11] == c.geodata
  {
  }

  lemma FixedSameBySection(a: Config, b: Config, olds: seq<Raw>, news: seq<Raw>)
    requires olds == StaticSections(a) && news == StaticSections(b)
    ensures |olds| == |news| == 12
    ensures FixedSame(a, b) <==> forall i :: 0 <= i < 12 ==> RawEqualNormalized(olds[i], news[i])
  {
    hide StaticSections, MeaningOf;
    SectionsAre(a, olds);
    SectionsAre(b, news);
    if forall i :: 0 <= i < 12 ==> RawEqualNormalized(olds[i], news[i]) {
      assert RawEqualNormalized(olds[0], news[0]) && RawEqualNormalized(olds[1], news[1]);
      assert RawEqualNormalized(olds[2], news[2]) && RawEqualNormalized(olds[3], news[3]);
      assert RawEqualNormalized(olds[4], news[4]) && RawEqualNormalized(olds[5], news[5]);
      assert RawEqualNormalized(olds[6], news[6]) && RawEqualNormalized(olds[7], news[7]);
      assert RawEqualNormalized(olds[8], news[8]) && RawEqualNormalized(olds[9], news[9]);
      assert RawEqualNormalized(olds[10], news[10]) && RawEqualNormalized(olds[11], news[11]);
    }
  }

  /** Exactly when a change can be applied without a restart. */
  ghost predicate HotAppliable(a: Config, b: Config) {
    && FixedSame(a, b)
    && InboundsAppliable(a.inbounds, b.inbounds, ApiTag(b.api))
    && OutboundsAppliable(a.outbounds, b.outbounds)
    && RoutingAppliable(a.routing, b.routing)
  }

  ghost predicate EditsFor(ed: Edits, a: Config, b: Config)
    requires HotAppliable(a, b)
  {
    && InboundEdits(ed, InboundsByTag(a.inbounds).value, InboundsByTag(b.inbounds).value, ApiTag(b.api))
    && OutboundEdits(ed, OutboundTable(ParseOutbounds(a.outbounds).value),
      OutboundTable(ParseOutbounds(b.outbounds).value))
    && ed.routingConfig == (if a.routing == b.routing then None else Some(b.routing))
  }

  method ComputeHotDiff(oldCfg: Option<Config>, newCfg: Option<Config>) returns (diff: Diff?)
    ensures diff != null <==> oldCfg.Some? && newCfg.Some? && HotAppliable(oldCfg.value, newCfg.value)
    ensures diff != null ==> fresh(diff) && EditsFor(diff.View(), oldCfg.value, newCfg.value)
  {
    if oldCfg.None? || newCfg.None? {
      return null;
    }
    var a, b := oldCfg.value, newCfg.value;
    var olds, news := StaticSections(a), StaticSections(b);
    FixedSameBySection(a, b, olds, news);
    for i := 0 to |olds|
      invariant forall k :: 0 <= k < i ==> RawEqualNormalized(olds[k], news[k])
    {
      if !RawEqualNormalized(olds[i], news[i]) {
        return null;
      }
    }
    var d := new Diff();
    var ok := DiffInbounds(a.inbounds, b.inbounds, b.api, d);
    if !ok {
      return null;
    }
    ok := DiffOutbounds(a.outbounds, b.outbounds, d);
    if !ok {
      return null;
    }
    ok := DiffRouting(a.routing, b.routing, d);
    if !ok {
      return null;
    }
    return d;
  }
}
