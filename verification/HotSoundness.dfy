/**
 Soundness of the hot diff.  Running the script from the old state is legal at every step and
 ends in the new state; so does redoing it, with the panel's retry rules, from any state an
 interrupted attempt leaves behind.  Handlers the diff keeps are never named.
 */
module HotSoundness {
  import opened Prelude
  import opened JsonValues
  import opened HotConfig
  import opened HotDiff
  import opened HotApply

  function OldBy(a: Config): map<string, InboundConfig>
    requires InboundsByTag(a.inbounds).Some?
  {
    InboundsByTag(a.inbounds).value
  }

  function Outs(a: Config): map<string, Json>
    requires ParseOutbounds(a.outbounds).Some?
  {
    OutboundTable(ParseOutbounds(a.outbounds).value)
  }

  ghost predicate ScriptFor(ed: Edits, a: Config, b: Config) {
    HotAppliable(a, b) && EditsFor(ed, a, b)
  }

  // ---- states the script can be run from ------------------------------------------

  /** h is g except for users the script names at tag t. */
  ghost predicate SameButNamedUsers(h: Handler, g: Handler, t: string, ed: Edits) {
    if g.settings.Users? then
      && h.settings.Users? && h == WithUsers(g, h.settings.users)
      && (forall e :: !Names(ed.removedUsers, t, e) && !Names(ed.addedUsers, t, e) ==>
            (e in h.settings.users <==> e in g.settings.users)
            && (e in g.settings.users ==> h.settings.users[e] == g.settings.users[e]))
    else h == g
  }

  ghost predicate NamesInbound(ed: Edits, t: string) {
    t in ed.removedInboundTags || exists ib :: ib in ed.addedInbounds && ib.tag == t
  }

  ghost predicate NamesOutbound(ed: Edits, t: string) {
    t in ed.removedOutboundTags || exists e :: e in ed.addedOutbounds && e.tag == t
  }

  /** s differs from c at most in what the script is going to set anyway. */
  ghost predicate Recoverable(s: Core, c: Core, ed: Edits) {
    && s.fixed == c.fixed && s.defaultOutbound == c.defaultOutbound
    && (if ed.routingConfig.None? then s.routing == c.routing
        else s.routing.Router? && c.routing.Router? && SameButReloadable(s.routing.section, c.routing.section))
    && (forall t :: !NamesOutbound(ed, t) ==>
          (t in s.outbounds <==> t in c.outbounds) && (t in c.outbounds ==> s.outbounds[t] == c.outbounds[t]))
    && RecoverableInbounds(s.inbounds, c.inbounds, ed)
  }

  ghost predicate RecoverableInbounds(m: map<string, Handler>, olds: map<string, Handler>, ed: Edits) {
    forall t :: !NamesInbound(ed, t) ==>
      (t in m <==> t in olds) && (t in olds ==> SameButNamedUsers(m[t], olds[t], t, ed))
  }

  ghost predicate TagsMatch(byTag: map<string, InboundConfig>) {
    forall t :: t in byTag ==> byTag[t].tag == t
  }

  /** The inbound side of a successful diff. */
  ghost predicate InboundScript(ed: Edits, oldBy: map<string, InboundConfig>, newBy: map<string, InboundConfig>,
                                apiTag: string) {
    && TagsMatch(oldBy) && TagsMatch(newBy)
    && NoneRefused(oldBy, newBy, apiTag)
    && InboundEdits(ed, oldBy, newBy, apiTag)
  }

  lemma InboundScriptOf(ed: Edits, a: Config, b: Config)
    requires ScriptFor(ed, a, b)
    ensures InboundScript(ed, OldBy(a), OldBy(b), ApiTag(b.api))
  {
    InboundsByTagSound(a.inbounds);
    InboundsByTagSound(b.inbounds);
  }

  // ---- one table at a time -----------------------------------------------------------

  lemma SameMeaningSameSettings(a: Raw, b: Raw)
    requires MeaningOf(a) == MeaningOf(b)
    ensures SettingsOf(a) == SettingsOf(b)
  {
  }

  lemma UnnamedUsersStay(users: map<string, Json>, t: string, us: seq<UserOp>)
    requires DistinctUsers(us) && forall e :: !Names(us, t, e)
    ensures With(users, t, us) == users
  {
    forall e
      ensures e in With(users, t, us) <==> e in users
      ensures e in users ==> With(users, t, us)[e] == users[e]
    {
      WithAt(users, t, us, e);
    }
  }

  /** The handler table just before users are added. */
  function BeforeUsers(m: map<string, Handler>, ed: Edits): map<string, Handler> {
    UpsertInbounds(DropUsers(m, ed.removedUsers) - (set t | t in ed.removedInboundTags), ed.addedInbounds)
  }

  function FinalInbounds(m: map<string, Handler>, ed: Edits): map<string, Handler> {
    PutUsers(BeforeUsers(m, ed), ed.addedUsers)
  }

  lemma NamesInboundAt(ed: Edits, oldBy: map<string, InboundConfig>, newBy: map<string, InboundConfig>,
                       apiTag: string, t: string)
    requires InboundScript(ed, oldBy, newBy, apiTag)
    ensures (exists ib :: ib in ed.addedInbounds && ib.tag == t) <==>
      t in newBy && (t in oldBy ==> FateOf(oldBy[t], newBy, apiTag).Replace?)
    ensures t in newBy && (exists ib :: ib in ed.addedInbounds && ib.tag == t) ==> newBy[t] in ed.addedInbounds
    ensures NamesInbound(ed, t) <==>
      if t in oldBy then (var fate := FateOf(oldBy[t], newBy, apiTag); fate.Replace? || fate.Drop?) else t in newBy
  {
    if t in newBy && (t in oldBy ==> FateOf(oldBy[t], newBy, apiTag).Replace?) {
      assert newBy[t] in ed.addedInbounds;
    }
  }

  lemma BeforeUsersAt(m: map<string, Handler>, ed: Edits, oldBy: map<string, InboundConfig>,
                      newBy: map<string, InboundConfig>, apiTag: string, t: string)
    requires InboundScript(ed, oldBy, newBy, apiTag) && RecoverableInbounds(m, Handlers(oldBy), ed)
    ensures var r := BeforeUsers(m, ed);
      && (t in r <==> t in newBy)
      && (t in r && NamesInbound(ed, t) ==> r[t] == HandlerOf(newBy[t]))
      && (t in r && !NamesInbound(ed, t) ==> t in m && r[t] == Without(m[t], t, ed.removedUsers))
  {
    hide UserRemovalsFor, UserAdditionsFor, InboundEqualNormalized, UserDiffable, Marshals, HasReverseClient,
      HandlerOf, Without;
    var dropped := DropUsers(m, ed.removedUsers) - (set t | t in ed.removedInboundTags);
    UpsertInboundsAt(dropped, ed.addedInbounds, t);
    NamesInboundAt(ed, oldBy, newBy, apiTag, t);
    if exists ib :: ib in ed.addedInbounds && ib.tag == t {
      var i :| 0 <= i < |ed.addedInbounds| && ed.addedInbounds[i] == newBy[t];
    } else {
      forall i | 0 <= i < |ed.addedInbounds|
        ensures ed.addedInbounds[i].tag != t
      {
        assert ed.addedInbounds[i] in ed.addedInbounds;
      }
    }
  }

  /** An inbound whose users are edited is neither removed nor added. */
  lemma EditedNotNamed(ed: Edits, oldBy: map<string, InboundConfig>, newBy: map<string, InboundConfig>,
                       apiTag: string, t: string)
    requires InboundScript(ed, oldBy, newBy, apiTag)
    requires t in oldBy && t in newBy
    requires var fate := FateOf(oldBy[t], newBy, apiTag); fate.EditUsers? || fate.Keep?
    ensures !NamesInbound(ed, t)
  {
    NamesInboundAt(ed, oldBy, newBy, apiTag, t);
  }

  lemma ReplacedInbound(m: map<string, Handler>, ed: Edits, oldBy: map<string, InboundConfig>,
                        newBy: map<string, InboundConfig>, apiTag: string, t: string)
    requires InboundScript(ed, oldBy, newBy, apiTag) && RecoverableInbounds(m, Handlers(oldBy), ed)
    requires t in newBy && NamesInbound(ed, t)
    ensures t in FinalInbounds(m, ed) && FinalInbounds(m, ed)[t] == HandlerOf(newBy[t])
  {
    BeforeUsersAt(m, ed, oldBy, newBy, apiTag, t);
    NamesInboundAt(ed, oldBy, newBy, apiTag, t);
    forall e
      ensures !Names(ed.addedUsers, t, e)
    {
    }
    var h := BeforeUsers(m, ed)[t];
    if h.settings.Users? {
      UnnamedUsersStay(h.settings.users, t, ed.addedUsers);
    }
  }

  /** Where the script names no user, a recoverable handler is the old one and stays it. */
  lemma UnnamedHandlerStays(h: Handler, g: Handler, t: string, ed: Edits)
    requires DistinctUsers(ed.addedUsers)
    requires forall e :: !Names(ed.removedUsers, t, e) && !Names(ed.addedUsers, t, e)
    requires SameButNamedUsers(h, g, t, ed)
    ensures Without(h, t, ed.removedUsers) == g
    ensures g.settings.Users? ==> With(g.settings.users, t, ed.addedUsers) == g.settings.users
  {
    if g.settings.Users? {
      assert h.settings.users == g.settings.users;
      assert Without(h, t, ed.removedUsers).settings.users == h.settings.users;
      UnnamedUsersStay(g.settings.users, t, ed.addedUsers);
    }
  }

  lemma EqualInboundsRunAlike(x: InboundConfig, y: InboundConfig)
    requires InboundEqualNormalized(x, y)
    ensures HandlerOf(x) == HandlerOf(y)
  {
    SameMeaningSameSettings(x.settings, y.settings);
  }

  lemma KeptRunsAlike(x: InboundConfig, newBy: map<string, InboundConfig>, apiTag: string)
    requires FateOf(x, newBy, apiTag).Keep?
    ensures HandlerOf(x) == HandlerOf(newBy[x.tag])
  {
    EqualInboundsRunAlike(x, newBy[x.tag]);
  }

  lemma KeptNamesNobody(ed: Edits, oldBy: map<string, InboundConfig>, newBy: map<string, InboundConfig>,
                        apiTag: string, t: string)
    requires InboundScript(ed, oldBy, newBy, apiTag)
    requires t in oldBy && FateOf(oldBy[t], newBy, apiTag).Keep?
    ensures DistinctUsers(ed.addedUsers)
    ensures forall e :: !Names(ed.removedUsers, t, e) && !Names(ed.addedUsers, t, e)
  {
    hide FateOf, Names, NoneRefused;
    assert !Edited(oldBy.Keys, oldBy, newBy, apiTag, t);
  }

  lemma EditedRunsAlike(x: InboundConfig, newBy: map<string, InboundConfig>, apiTag: string)
    requires FateOf(x, newBy, apiTag).EditUsers?
    ensures HandlerOf(x).settings.Users? && HandlerOf(x).settings.users == Clients(x) && x.tag in newBy
    ensures HandlerOf(newBy[x.tag]) == WithUsers(HandlerOf(x), Clients(newBy[x.tag]))
  {
  }

  lemma KeptInbound(m: map<string, Handler>, ed: Edits, oldBy: map<string, InboundConfig>,
                    newBy: map<string, InboundConfig>, apiTag: string, t: string)
    requires InboundScript(ed, oldBy, newBy, apiTag) && RecoverableInbounds(m, Handlers(oldBy), ed)
    requires t in oldBy && t in newBy && FateOf(oldBy[t], newBy, apiTag).Keep?
    ensures t in FinalInbounds(m, ed) && FinalInbounds(m, ed)[t] == HandlerOf(newBy[t])
  {
    hide InboundEdits, NoneRefused, FateOf, HandlerOf, BeforeUsers, NamesInbound;
    EditedNotNamed(ed, oldBy, newBy, apiTag, t);
    BeforeUsersAt(m, ed, oldBy, newBy, apiTag, t);
    KeptRunsAlike(oldBy[t], newBy, apiTag);
    assert SameButNamedUsers(m[t], Handlers(oldBy)[t], t, ed);
    KeptNamesNobody(ed, oldBy, newBy, apiTag, t);
    UnnamedHandlerStays(m[t], HandlerOf(oldBy[t]), t, ed);
  }

  lemma EditedUsers(left: map<string, Json>, h: Handler, ed: Edits, oldBy: map<string, InboundConfig>,
                    newBy: map<string, InboundConfig>, apiTag: string, t: string)
    requires InboundScript(ed, oldBy, newBy, apiTag)
    requires t in oldBy && t in newBy && FateOf(oldBy[t], newBy, apiTag).EditUsers?
    requires SameButNamedUsers(h, HandlerOf(oldBy[t]), t, ed)
    requires left == Without(h, t, ed.removedUsers).settings.users
    ensures With(left, t, ed.addedUsers) == Clients(newBy[t])
  {
    hide HandlerOf, FateOf, NoneRefused, Clients, With;
    EditedRunsAlike(oldBy[t], newBy, apiTag);
    var oldC, newC := Clients(oldBy[t]), Clients(newBy[t]);
    var final := With(left, t, ed.addedUsers);
    assert Edited(oldBy.Keys, oldBy, newBy, apiTag, t);
    forall e
      ensures e in final <==> e in newC
      ensures e in newC ==> final[e] == newC[e]
    {
      WithAt(left, t, ed.addedUsers, e);
      assert Names(ed.removedUsers, t, e) <==> e in GoneOrChanged(oldC, newC);
      assert Names(ed.addedUsers, t, e) <==> e in NewOrChanged(oldC, newC);
    }
  }

  lemma EditedInbound(m: map<string, Handler>, ed: Edits, oldBy: map<string, InboundConfig>,
                      newBy: map<string, InboundConfig>, apiTag: string, t: string)
    requires InboundScript(ed, oldBy, newBy, apiTag) && RecoverableInbounds(m, Handlers(oldBy), ed)
    requires t in oldBy && t in newBy && FateOf(oldBy[t], newBy, apiTag).EditUsers?
    ensures t in FinalInbounds(m, ed) && FinalInbounds(m, ed)[t] == HandlerOf(newBy[t])
    ensures HasUserList(BeforeUsers(m, ed), t)
  {
    hide InboundEdits, NoneRefused, FateOf, HandlerOf, BeforeUsers, NamesInbound;
    EditedRunsAlike(oldBy[t], newBy, apiTag);
    EditedNotNamed(ed, oldBy, newBy, apiTag, t);
    BeforeUsersAt(m, ed, oldBy, newBy, apiTag, t);
    assert SameButNamedUsers(m[t], Handlers(oldBy)[t], t, ed);
    var left := Without(m[t], t, ed.removedUsers).settings.users;
    EditedUsers(left, m[t], ed, oldBy, newBy, apiTag, t);
  }

  lemma FinalInboundAt(m: map<string, Handler>, ed: Edits, oldBy: map<string, InboundConfig>,
                       newBy: map<string, InboundConfig>, apiTag: string, t: string)
    requires InboundScript(ed, oldBy, newBy, apiTag) && RecoverableInbounds(m, Handlers(oldBy), ed)
    ensures t in FinalInbounds(m, ed) <==> t in newBy
    ensures t in newBy ==> FinalInbounds(m, ed)[t] == HandlerOf(newBy[t])
  {
    hide HandlerOf, InboundEdits, NamesInbound, RecoverableInbounds, BeforeUsers, InboundEqualNormalized, UserDiffable;
    BeforeUsersAt(m, ed, oldBy, newBy, apiTag, t);
    if t in newBy {
      NamesInboundAt(ed, oldBy, newBy, apiTag, t);
      if NamesInbound(ed, t) {
        ReplacedInbound(m, ed, oldBy, newBy, apiTag, t);
      } else if FateOf(oldBy[t], newBy, apiTag).Keep? {
        KeptInbound(m, ed, oldBy, newBy, apiTag, t);
      } else {
        EditedInbound(m, ed, oldBy, newBy, apiTag, t);
      }
    }
  }

  lemma InboundsPhase(m: map<string, Handler>, ed: Edits, oldBy: map<string, InboundConfig>,
                      newBy: map<string, InboundConfig>, apiTag: string)
    requires InboundScript(ed, oldBy, newBy, apiTag) && RecoverableInbounds(m, Handlers(oldBy), ed)
    ensures FinalInbounds(m, ed) == Handlers(newBy)
    ensures forall i :: 0 <= i < |ed.addedUsers| ==> HasUserList(BeforeUsers(m, ed), ed.addedUsers[i].tag)
  {
    hide HandlerOf, FinalInbounds, BeforeUsers, RecoverableInbounds, FateOf, HasUserList;
    forall t
      ensures t in FinalInbounds(m, ed) <==> t in newBy
      ensures t in newBy ==> FinalInbounds(m, ed)[t] == HandlerOf(newBy[t])
    {
      FinalInboundAt(m, ed, oldBy, newBy, apiTag, t);
    }
    forall i | 0 <= i < |ed.addedUsers|
      ensures HasUserList(BeforeUsers(m, ed), ed.addedUsers[i].tag)
    {
      var u := ed.addedUsers[i];
      assert Names(ed.addedUsers, u.tag, u.email);
      EditedInbound(m, ed, oldBy, newBy, apiTag, u.tag);
    }
  }

  lemma OutboundsPhase(s: Core, ed: Edits, a: Config, b: Config)
    requires ScriptFor(ed, a, b) && Recoverable(s, Running(a), ed)
    ensures UpsertOutbounds(s.outbounds - (set t | t in ed.removedOutboundTags), ed.addedOutbounds) == Outs(b)
  {
    var left := s.outbounds - (set t | t in ed.removedOutboundTags);
    var final := UpsertOutbounds(left, ed.addedOutbounds);
    forall t
      ensures t in final <==> t in Outs(b)
      ensures t in Outs(b) ==> final[t] == Outs(b)[t]
    {
      UpsertOutboundsAt(left, ed.addedOutbounds, t);
      if i :| 0 <= i < |ed.addedOutbounds| && ed.addedOutbounds[i].tag == t {
        assert ed.addedOutbounds[i] in ed.addedOutbounds;
      } else {
        assert forall e :: e in ed.addedOutbounds ==> e.tag != t;
        if t in Outs(b) {
          assert OutboundEntry(t, Outs(b)[t]) !in ed.addedOutbounds;
        }
      }
    }
  }

  lemma FixedPartsSame(a: Config, b: Config)
    requires HotAppliable(a, b)
    ensures Running(a).fixed == Running(b).fixed
    ensures Running(a).defaultOutbound == Running(b).defaultOutbound
    ensures a.routing != b.routing ==>
      && RoutingOf(a.routing).Router? && RoutingOf(b.routing).Router?
      && SameButReloadable(RoutingOf(a.routing).section, RoutingOf(b.routing).section)
  {
    hide MeaningOf, InboundsAppliable;
  }

  // ---- the theorems ---------------------------------------------------------------------

  /** Redoing the script from any recoverable state ends in the state of the new configuration. */
  lemma RedoReachesNew(s: Core, ed: Edits, a: Config, b: Config)
    requires ScriptFor(ed, a, b) && Recoverable(s, Running(a), ed)
    ensures LenientRun(s, Script(ed)) == Some(Running(b))
  {
    InboundScriptOf(ed, a, b);
    InboundsPhase(s.inbounds, ed, OldBy(a), OldBy(b), ApiTag(b.api));
    OutboundsPhase(s, ed, a, b);
    FixedPartsSame(a, b);
    var c1 := s.(inbounds := DropUsers(s.inbounds, ed.removedUsers));
    var c2 := c1.(inbounds := c1.inbounds - (set t | t in ed.removedInboundTags));
    var c3 := c2.(outbounds := c2.outbounds - (set t | t in ed.removedOutboundTags));
    var c4 := c3.(outbounds := Outs(b));
    var c5 := c4.(inbounds := BeforeUsers(s.inbounds, ed));
    var c6 := c5.(inbounds := Handlers(OldBy(b)));
    var tail6 := RoutingOps(ed.routingConfig);
    var tail5 := AddUserOps(ed.addedUsers) + tail6;
    var tail4 := AddInboundOps(ed.addedInbounds) + tail5;
    var tail3 := AddOutboundOps(ed.addedOutbounds) + tail4;
    var tail2 := RemoveOutboundOps(ed.removedOutboundTags) + tail3;
    var tail1 := RemoveInboundOps(ed.removedInboundTags) + tail2;
    RemoveUsersPhase(s, ed.removedUsers);
    LenientRunConcat(s, RemoveUserOps(ed.removedUsers), tail1);
    RemoveInboundsPhase(c1, ed.removedInboundTags);
    LenientRunConcat(c1, RemoveInboundOps(ed.removedInboundTags), tail2);
    RemoveOutboundsPhase(c2, ed.removedOutboundTags);
    LenientRunConcat(c2, RemoveOutboundOps(ed.removedOutboundTags), tail3);
    AddOutboundsPhase(c3, ed.addedOutbounds);
    LenientRunConcat(c3, AddOutboundOps(ed.addedOutbounds), tail4);
    AddInboundsPhase(c4, ed.addedInbounds);
    LenientRunConcat(c4, AddInboundOps(ed.addedInbounds), tail5);
    AddUsersPhase(c5, ed.addedUsers);
    LenientRunConcat(c5, AddUserOps(ed.addedUsers), tail6);
    RoutingPhase(c6, ed, a, b);
  }

  lemma RoutingPhase(c: Core, ed: Edits, a: Config, b: Config)
    requires ScriptFor(ed, a, b)
    requires c == Running(b).(routing := c.routing)
    requires if ed.routingConfig.None? then c.routing == RoutingOf(a.routing)
             else c.routing.Router? && RoutingOf(b.routing).Router?
                  && SameButReloadable(c.routing.section, RoutingOf(b.routing).section)
    ensures LenientRun(c, RoutingOps(ed.routingConfig)) == Some(Running(b))
    ensures Run(c, RoutingOps(ed.routingConfig)) == Some(Running(b))
  {
    hide Running, HotAppliable, RoutingOf, LenientStep, InboundsByTag, ParseOutbounds, InboundEdits, OutboundEdits;
    RoutingRuns(b);
    if ed.routingConfig.Some? {
      ReloadedIsNew(c.routing.section, RoutingOf(b.routing).section);
      OneStep(c, SetRouting(b.routing), Running(b));
    }
  }

  lemma RoutingRuns(b: Config)
    ensures Running(b).routing == RoutingOf(b.routing)
  {
  }

  lemma OneStep(c: Core, op: Op, r: Core)
    requires Step(c, op) == Some(r)
    ensures Run(c, [op]) == Some(r) && LenientRun(c, [op]) == Some(r)
  {
    hide Step;
    assert [op][0] == op && [op][1..] == [];
    assert Run(r, []) == Some(r) && LenientRun(r, []) == Some(r);
  }

  lemma OldIsRecoverable(ed: Edits, a: Config, b: Config)
    requires ScriptFor(ed, a, b)
    ensures Recoverable(Running(a), Running(a), ed)
  {
    FixedPartsSame(a, b);
  }

  /** Applying the script to the old core never fails and gives exactly the new core. */
  lemma DiffIsSound(ed: Edits, a: Config, b: Config)
    requires ScriptFor(ed, a, b)
    ensures Run(Running(a), Script(ed)) == Some(Running(b))
  {
    var s := Running(a);
    OldIsRecoverable(ed, a, b);
    InboundScriptOf(ed, a, b);
    InboundsPhase(s.inbounds, ed, OldBy(a), OldBy(b), ApiTag(b.api));
    OutboundsPhase(s, ed, a, b);
    FixedPartsSame(a, b);
    StrictUserRemovals(ed, a, b);
    StrictAdditions(ed, a, b);
    var c1 := s.(inbounds := DropUsers(s.inbounds, ed.removedUsers));
    var c2 := c1.(inbounds := c1.inbounds - (set t | t in ed.removedInboundTags));
    var c3 := c2.(outbounds := c2.outbounds - (set t | t in ed.removedOutboundTags));
    var c4 := c3.(outbounds := Outs(b));
    var c5 := c4.(inbounds := BeforeUsers(s.inbounds, ed));
    var c6 := c5.(inbounds := Handlers(OldBy(b)));
    var tail6 := RoutingOps(ed.routingConfig);
    var tail5 := AddUserOps(ed.addedUsers) + tail6;
    var tail4 := AddInboundOps(ed.addedInbounds) + tail5;
    var tail3 := AddOutboundOps(ed.addedOutbounds) + tail4;
    var tail2 := RemoveOutboundOps(ed.removedOutboundTags) + tail3;
    var tail1 := RemoveInboundOps(ed.removedInboundTags) + tail2;
    RemoveUsersPhase(s, ed.removedUsers);
    RunConcat(s, RemoveUserOps(ed.removedUsers), tail1);
    RemoveInboundsPhase(c1, ed.removedInboundTags);
    RunConcat(c1, RemoveInboundOps(ed.removedInboundTags), tail2);
    RemoveOutboundsPhase(c2, ed.removedOutboundTags);
    RunConcat(c2, RemoveOutboundOps(ed.removedOutboundTags), tail3);
    AddOutboundsPhase(c3, ed.addedOutbounds);
    RunConcat(c3, AddOutboundOps(ed.addedOutbounds), tail4);
    AddInboundsPhase(c4, ed.addedInbounds);
    RunConcat(c4, AddInboundOps(ed.addedInbounds), tail5);
    AddUsersPhase(c5, ed.addedUsers);
    RunConcat(c5, AddUserOps(ed.addedUsers), tail6);
    RoutingPhase(c6, ed, a, b);
  }

  lemma StrictUserRemovals(ed: Edits, a: Config, b: Config)
    requires ScriptFor(ed, a, b)
    ensures forall i :: 0 <= i < |ed.removedUsers| ==>
      HasUser(Running(a).inbounds, ed.removedUsers[i].tag, ed.removedUsers[i].email)
    ensures forall t :: t in ed.removedInboundTags ==> t in Running(a).inbounds
    ensures forall t :: t in ed.removedOutboundTags ==> t in Running(a).outbounds
  {
    InboundsByTagSound(a.inbounds);
    forall i | 0 <= i < |ed.removedUsers|
      ensures HasUser(Running(a).inbounds, ed.removedUsers[i].tag, ed.removedUsers[i].email)
    {
      var u := ed.removedUsers[i];
      assert Names(ed.removedUsers, u.tag, u.email);
    }
  }

  /** A user the script adds is not there when its turn comes: new, or removed as changed just before. */
  lemma AddedUserIsFree(m: map<string, Handler>, ed: Edits, oldBy: map<string, InboundConfig>,
                        newBy: map<string, InboundConfig>, apiTag: string, t: string, e: string)
    requires InboundScript(ed, oldBy, newBy, apiTag) && RecoverableInbounds(m, Handlers(oldBy), ed)
    requires m == Handlers(oldBy) && Names(ed.addedUsers, t, e)
    ensures !HasUser(BeforeUsers(m, ed), t, e)
  {
    hide HandlerOf, BeforeUsers, Clients, FateOf, NoneRefused, RecoverableInbounds, NamesInbound;
    EditedNotNamed(ed, oldBy, newBy, apiTag, t);
    BeforeUsersAt(m, ed, oldBy, newBy, apiTag, t);
    EditedRunsAlike(oldBy[t], newBy, apiTag);
    var oldC, newC := Clients(oldBy[t]), Clients(newBy[t]);
    assert e in NewOrChanged(oldC, newC);
    if e in oldC {
      assert e in GoneOrChanged(oldC, newC);
      assert Names(ed.removedUsers, t, e);
    }
  }

  lemma AddedHandlersAreFree(ed: Edits, a: Config, b: Config)
    requires ScriptFor(ed, a, b)
    ensures var s := Running(a);
      && (forall i :: 0 <= i < |ed.addedOutbounds| ==>
            ed.addedOutbounds[i].tag !in s.outbounds - (set t | t in ed.removedOutboundTags))
      && (forall i :: 0 <= i < |ed.addedInbounds| ==>
            ed.addedInbounds[i].tag !in DropUsers(s.inbounds, ed.removedUsers) - (set t | t in ed.removedInboundTags))
  {
    hide HandlerOf, Without;
    var s := Running(a);
    InboundsByTagSound(a.inbounds);
    forall i | 0 <= i < |ed.addedOutbounds|
      ensures ed.addedOutbounds[i].tag !in s.outbounds - (set t | t in ed.removedOutboundTags)
    {
      assert ed.addedOutbounds[i] in ed.addedOutbounds;
    }
    forall i | 0 <= i < |ed.addedInbounds|
      ensures ed.addedInbounds[i].tag !in DropUsers(s.inbounds, ed.removedUsers) - (set t | t in ed.removedInboundTags)
    {
      assert ed.addedInbounds[i] in ed.addedInbounds;
    }
  }

  lemma StrictAdditions(ed: Edits, a: Config, b: Config)
    requires ScriptFor(ed, a, b)
    ensures var s := Running(a);
      && (forall i :: 0 <= i < |ed.addedOutbounds| ==>
            ed.addedOutbounds[i].tag !in s.outbounds - (set t | t in ed.removedOutboundTags))
      && (forall i :: 0 <= i < |ed.addedInbounds| ==>
            ed.addedInbounds[i].tag !in DropUsers(s.inbounds, ed.removedUsers) - (set t | t in ed.removedInboundTags))
      && (forall i :: 0 <= i < |ed.addedUsers| ==>
            !HasUser(BeforeUsers(s.inbounds, ed), ed.addedUsers[i].tag, ed.addedUsers[i].email))
  {
    hide HasUser, BeforeUsers, DropUsers, InboundScript;
    AddedHandlersAreFree(ed, a, b);
    OldIsRecoverable(ed, a, b);
    InboundScriptOf(ed, a, b);
    forall i | 0 <= i < |ed.addedUsers|
      ensures !HasUser(BeforeUsers(Running(a).inbounds, ed), ed.addedUsers[i].tag, ed.addedUsers[i].email)
    {
      var u := ed.addedUsers[i];
      assert Names(ed.addedUsers, u.tag, u.email);
      AddedUserIsFree(Running(a).inbounds, ed, OldBy(a), OldBy(b), ApiTag(b.api), u.tag, u.email);
    }
  }

  // ---- interrupted runs -------------------------------------------------------------------

  lemma {:induction false} UserRemovalOpsAre(us: seq<UserOp>, op: Op)
    ensures op in RemoveUserOps(us) <==> op.RemoveUser? && Names(us, op.tag, op.email)
  {
    if us != [] {
      UserRemovalOpsAre(us[1..], op);
      NamesConcat([us[0]], us[1..]);
      assert us == [us[0]] + us[1..];
      assert [us[0]][0] == us[0];
    }
  }

  lemma {:induction false} TagOpsAre(tags: seq<string>, op: Op)
    ensures op in RemoveInboundOps(tags) <==> op.RemoveInbound? && op.tag in tags
    ensures op in RemoveOutboundOps(tags) <==> op.RemoveOutbound? && op.tag in tags
  {
    if tags != [] {
      TagOpsAre(tags[1..], op);
    }
  }

  lemma {:induction false} AdditionOpsAre(es: seq<OutboundEntry>, ibs: seq<InboundConfig>, op: Op)
    ensures op in AddOutboundOps(es) <==> op.AddOutbound? && op.entry in es
    ensures op in AddInboundOps(ibs) <==> op.AddInbound? && op.inbound in ibs
    decreases |es| + |ibs|
  {
    if es != [] {
      AdditionOpsAre(es[1..], ibs, op);
    } else if ibs != [] {
      AdditionOpsAre(es, ibs[1..], op);
    }
  }

  lemma {:induction false} UserAdditionOpsAre(us: seq<UserOp>, op: Op)
    requires op in AddUserOps(us)
    ensures op.AddUser? && Names(us, op.tag, op.email)
  {
    if us != [] {
      if op in AddUserOps(us[1..]) {
        UserAdditionOpsAre(us[1..], op);
      }
      NamesConcat([us[0]], us[1..]);
      assert us == [us[0]] + us[1..];
      assert [us[0]][0] == us[0];
    }
  }

  /** Whether an operation reaches the inbound with tag t. */
  predicate TouchesInbound(op: Op, t: string) {
    match op
    case RemoveUser(t', _) => t' == t
    case RemoveInbound(t') => t' == t
    case AddInbound(ib) => ib.tag == t
    case AddUser(t', _, _) => t' == t
    case _ => false
  }

  predicate TouchesOutbound(op: Op, t: string) {
    match op
    case RemoveOutbound(t') => t' == t
    case AddOutbound(e) => e.tag == t
    case _ => false
  }

  /** What a single operation of the script can be. */
  lemma ScriptOps(ed: Edits, op: Op)
    requires op in Script(ed)
    ensures match op
      case RemoveUser(t, e) => Names(ed.removedUsers, t, e)
      case RemoveInbound(t) => t in ed.removedInboundTags
      case RemoveOutbound(t) => t in ed.removedOutboundTags
      case AddOutbound(e) => e in ed.addedOutbounds
      case AddInbound(ib) => ib in ed.addedInbounds
      case AddUser(t, e, _) => Names(ed.addedUsers, t, e)
      case SetRouting(raw) => ed.routingConfig == Some(raw)
  {
    UserRemovalOpsAre(ed.removedUsers, op);
    TagOpsAre(ed.removedInboundTags, op);
    TagOpsAre(ed.removedOutboundTags, op);
    AdditionOpsAre(ed.addedOutbounds, ed.addedInbounds, op);
    if op in AddUserOps(ed.addedUsers) {
      UserAdditionOpsAre(ed.addedUsers, op);
    }
  }

  lemma InboundOpsAreMinimal(ed: Edits, a: Config, b: Config, op: Op)
    requires ScriptFor(ed, a, b) && op in Script(ed)
    ensures forall t :: t in OldBy(a) && t in OldBy(b) && InboundEqualNormalized(OldBy(a)[t], OldBy(b)[t]) ==>
      !TouchesInbound(op, t)
    ensures !TouchesInbound(op, "api") && !TouchesInbound(op, ApiTag(b.api))
  {
    hide Script, InboundsByTag, ParseOutbounds, OutboundEdits, OutboundsAppliable, FixedSame, RoutingAppliable;
    ScriptOps(ed, op);
    InboundScriptOf(ed, a, b);
    forall t | TouchesInbound(op, t)
      ensures t != "api" && t != ApiTag(b.api)
      ensures t in OldBy(a) && t in OldBy(b) ==> !InboundEqualNormalized(OldBy(a)[t], OldBy(b)[t])
    {
      assert t in OldBy(a) ==> OldBy(a)[t].tag == t;
    }
  }

  lemma EditedIsNotReplaced(ed: Edits, a: Config, b: Config, op: Op, t: string, e: string)
    requires ScriptFor(ed, a, b) && op in Script(ed)
    requires Names(ed.removedUsers, t, e) || Names(ed.addedUsers, t, e)
    ensures op != RemoveInbound(t) && !(op.AddInbound? && op.inbound.tag == t)
  {
    hide Script, Names, ScriptFor;
    ScriptOps(ed, op);
    NamedUserIsEdited(ed, a, b, t, e);
  }

  lemma OutboundOpsAreMinimal(ed: Edits, a: Config, b: Config, op: Op)
    requires ScriptFor(ed, a, b) && op in Script(ed)
    ensures forall t :: t in Outs(a) && t in Outs(b) && Outs(a)[t] == Outs(b)[t] ==> !TouchesOutbound(op, t)
    ensures Running(a).defaultOutbound.Some? ==> !TouchesOutbound(op, Running(a).defaultOutbound.value.tag)
  {
    hide Script, InboundsByTag, InboundEdits, InboundsAppliable, FixedSame, RoutingAppliable, OutboundTable;
    ScriptOps(ed, op);
    ParsedDistinct(a.outbounds);
    ParsedDistinct(b.outbounds);
    OutboundTableAt(ParseOutbounds(a.outbounds).value);
    OutboundTableAt(ParseOutbounds(b.outbounds).value);
  }

  /** Handlers the diff keeps, the api inbound and the default outbound are never touched, and an
      inbound whose clients are edited is neither removed nor added. */
  lemma ScriptIsMinimal(ed: Edits, a: Config, b: Config, op: Op)
    requires ScriptFor(ed, a, b) && op in Script(ed)
    ensures forall t :: t in OldBy(a) && t in OldBy(b) && InboundEqualNormalized(OldBy(a)[t], OldBy(b)[t]) ==>
      !TouchesInbound(op, t)
    ensures !TouchesInbound(op, "api") && !TouchesInbound(op, ApiTag(b.api))
    ensures forall t, e :: Names(ed.removedUsers, t, e) || Names(ed.addedUsers, t, e) ==>
      op != RemoveInbound(t) && !(op.AddInbound? && op.inbound.tag == t)
    ensures forall t :: t in Outs(a) && t in Outs(b) && Outs(a)[t] == Outs(b)[t] ==> !TouchesOutbound(op, t)
    ensures Running(a).defaultOutbound.Some? ==> !TouchesOutbound(op, Running(a).defaultOutbound.value.tag)
  {
    hide Script, Names, TouchesInbound, TouchesOutbound, InboundEqualNormalized, Outs, Running, EditsFor;
    InboundOpsAreMinimal(ed, a, b, op);
    OutboundOpsAreMinimal(ed, a, b, op);
    forall t, e | Names(ed.removedUsers, t, e) || Names(ed.addedUsers, t, e)
      ensures op != RemoveInbound(t) && !(op.AddInbound? && op.inbound.tag == t)
    {
      EditedIsNotReplaced(ed, a, b, op, t, e);
    }
  }

  /** Changing users the script names at t keeps the inbound table recoverable. */
  lemma UserChangeRecoverable(m: map<string, Handler>, olds: map<string, Handler>, ed: Edits, t: string, e: string,
                              users: map<string, Json>)
    requires RecoverableInbounds(m, olds, ed)
    requires HasUserList(m, t) && !NamesInbound(ed, t)
    requires Names(ed.removedUsers, t, e) || Names(ed.addedUsers, t, e)
    requires forall x :: x != e ==>
      (x in users <==> x in m[t].settings.users) && (x in users ==> users[x] == m[t].settings.users[x])
    ensures RecoverableInbounds(m[t := WithUsers(m[t], users)], olds, ed)
  {
    var m1 := m[t := WithUsers(m[t], users)];
    assert t in olds && SameButNamedUsers(m[t], olds[t], t, ed);
    assert SameButNamedUsers(m1[t], olds[t], t, ed);
    forall t' | !NamesInbound(ed, t')
      ensures t' in m1 <==> t' in olds
      ensures t' in olds ==> SameButNamedUsers(m1[t'], olds[t'], t', ed)
    {
      assert t' in m <==> t' in olds;
    }
  }

  /** Changing the entry of a tag the script names keeps the inbound table recoverable. */
  lemma NamedChangeRecoverable(m: map<string, Handler>, m1: map<string, Handler>, olds: map<string, Handler>,
                               ed: Edits, t: string)
    requires RecoverableInbounds(m, olds, ed) && NamesInbound(ed, t)
    requires forall t' :: t' != t ==> (t' in m1 <==> t' in m) && (t' in m ==> m1[t'] == m[t'])
    ensures RecoverableInbounds(m1, olds, ed)
  {
  }

  lemma UserStepRecoverable(s: Core, op: Op, ed: Edits, olds: map<string, Handler>)
    requires RecoverableInbounds(s.inbounds, olds, ed) && Step(s, op).Some?
    requires op.RemoveUser? || op.AddUser?
    requires !NamesInbound(ed, op.tag)
    requires Names(ed.removedUsers, op.tag, op.email) || Names(ed.addedUsers, op.tag, op.email)
    ensures RecoverableInbounds(Step(s, op).value.inbounds, olds, ed)
  {
    hide RecoverableInbounds, NamesInbound, Names, WithUsers;
    var users := s.inbounds[op.tag].settings.users;
    if op.RemoveUser? {
      UserChangeRecoverable(s.inbounds, olds, ed, op.tag, op.email, users - {op.email});
    } else {
      UserChangeRecoverable(s.inbounds, olds, ed, op.tag, op.email, users[op.email := op.user]);
    }
  }

  /** The operation is about something the script names. */
  ghost predicate Concerns(ed: Edits, op: Op) {
    match op
    case RemoveUser(t, e) => Names(ed.removedUsers, t, e) || Names(ed.addedUsers, t, e)
    case AddUser(t, e, _) => Names(ed.removedUsers, t, e) || Names(ed.addedUsers, t, e)
    case RemoveInbound(t) => NamesInbound(ed, t)
    case AddInbound(ib) => NamesInbound(ed, ib.tag)
    case RemoveOutbound(t) => NamesOutbound(ed, t)
    case AddOutbound(e) => NamesOutbound(ed, e.tag)
    case SetRouting(raw) => ed.routingConfig == Some(raw)
  }

  lemma ScriptConcerns(ed: Edits, op: Op)
    requires op in Script(ed)
    ensures Concerns(ed, op)
  {
    hide Script, Names;
    ScriptOps(ed, op);
  }

  lemma InboundStepRecoverable(s: Core, op: Op, ed: Edits, a: Config, b: Config)
    requires ScriptFor(ed, a, b) && RecoverableInbounds(s.inbounds, Handlers(OldBy(a)), ed)
    requires Concerns(ed, op) && Step(s, op).Some?
    ensures RecoverableInbounds(Step(s, op).value.inbounds, Handlers(OldBy(a)), ed)
  {
    hide RecoverableInbounds, HandlerOf, FateOf, Names, NamesInbound, NamesOutbound;
    InboundScriptOf(ed, a, b);
    match op
    case RemoveUser(t, e) =>
      NamedUserIsEdited(ed, a, b, t, e);
      UserStepRecoverable(s, op, ed, Handlers(OldBy(a)));
    case AddUser(t, e, u) =>
      NamedUserIsEdited(ed, a, b, t, e);
      UserStepRecoverable(s, op, ed, Handlers(OldBy(a)));
    case RemoveInbound(t) =>
      NamedChangeRecoverable(s.inbounds, s.inbounds - {t}, Handlers(OldBy(a)), ed, t);
    case AddInbound(ib) =>
      NamedChangeRecoverable(s.inbounds, s.inbounds[ib.tag := HandlerOf(ib)], Handlers(OldBy(a)), ed, ib.tag);
    case _ =>
  }

  lemma NamedUserIsEdited(ed: Edits, a: Config, b: Config, t: string, e: string)
    requires ScriptFor(ed, a, b) && (Names(ed.removedUsers, t, e) || Names(ed.addedUsers, t, e))
    ensures !NamesInbound(ed, t)
  {
    hide NamesInbound, FateOf, Names;
    InboundScriptOf(ed, a, b);
    EditedNotNamed(ed, OldBy(a), OldBy(b), ApiTag(b.api), t);
  }

  lemma OutboundStepRecoverable(s: Core, op: Op, ed: Edits, c: Core)
    requires Recoverable(s, c, ed) && Concerns(ed, op) && Step(s, op).Some?
    ensures var r := Step(s, op).value;
      forall t :: !NamesOutbound(ed, t) ==>
        (t in r.outbounds <==> t in c.outbounds) && (t in c.outbounds ==> r.outbounds[t] == c.outbounds[t])
  {
    hide RecoverableInbounds, NamesInbound, NamesOutbound, Names, WithUsers, HandlerOf, RoutingOf;
  }

  lemma SameTwice(a: Json, b: Json, c: Json)
    requires SameButReloadable(a, b) && SameButReloadable(b, c)
    ensures SameButReloadable(a, c)
  {
    if b.Obj? {
      forall k | k != "rules" && k != "balancers"
        ensures Field(a, k) == Field(c, k)
      {
        assert Field(a, k) == Field(b, k) == Field(c, k);
      }
    }
  }

  lemma RoutingStepRecoverable(s: Core, op: Op, ed: Edits, c: Core)
    requires Recoverable(s, c, ed) && Concerns(ed, op) && Step(s, op).Some?
    requires ed.routingConfig.Some? ==>
      && RoutingOf(ed.routingConfig.value).Router? && c.routing.Router?
      && SameButReloadable(RoutingOf(ed.routingConfig.value).section, c.routing.section)
      && SameButReloadable(c.routing.section, RoutingOf(ed.routingConfig.value).section)
    ensures var r := Step(s, op).value;
      && r.fixed == c.fixed && r.defaultOutbound == c.defaultOutbound
      && if ed.routingConfig.None? then r.routing == c.routing
         else r.routing.Router? && c.routing.Router? && SameButReloadable(r.routing.section, c.routing.section)
  {
    hide RecoverableInbounds, NamesInbound, NamesOutbound, Names, WithUsers, HandlerOf, RoutingOf, Reloaded,
      SameButReloadable;
    if op.SetRouting? {
      var next := RoutingOf(op.raw).section;
      SameTwice(s.routing.section, c.routing.section, next);
      ReloadedIsNew(s.routing.section, next);
    }
  }

  lemma NewRoutingFits(ed: Edits, a: Config, b: Config)
    requires ScriptFor(ed, a, b) && ed.routingConfig.Some?
    ensures var next := RoutingOf(ed.routingConfig.value);
      var c := Running(a).routing;
      && next.Router? && c.Router?
      && SameButReloadable(next.section, c.section) && SameButReloadable(c.section, next.section)
  {
    hide InboundsAppliable, OutboundsAppliable, InboundEdits, OutboundEdits, FixedSame, RoutingAppliable;
    FixedPartsSame(a, b);
  }

  /** Any operation about what the script names, made through the runtime API, keeps the core recoverable. */
  lemma StepStaysRecoverable(s: Core, op: Op, ed: Edits, a: Config, b: Config)
    requires ScriptFor(ed, a, b) && Recoverable(s, Running(a), ed)
    requires Concerns(ed, op) && Step(s, op).Some?
    ensures Recoverable(Step(s, op).value, Running(a), ed)
  {
    hide Step, Concerns, RecoverableInbounds, NamesOutbound, InboundsByTag, ParseOutbounds, HotAppliable, EditsFor;
    OldInbounds(a, b);
    OutboundStepRecoverable(s, op, ed, Running(a));
    if ed.routingConfig.Some? {
      NewRoutingFits(ed, a, b);
    }
    RoutingStepRecoverable(s, op, ed, Running(a));
    InboundStepRecoverable(s, op, ed, a, b);
  }

  lemma OldInbounds(a: Config, b: Config)
    requires HotAppliable(a, b)
    ensures InboundsByTag(a.inbounds).Some? && Running(a).inbounds == Handlers(OldBy(a))
  {
  }

  /** So does an operation under the panel's retry rules, and the removal such a retry begins with. */
  lemma RetryStaysRecoverable(s: Core, op: Op, ed: Edits, a: Config, b: Config)
    requires ScriptFor(ed, a, b) && Recoverable(s, Running(a), ed) && Concerns(ed, op)
    ensures LenientStep(s, op).Some? ==> Recoverable(LenientStep(s, op).value, Running(a), ed)
    ensures Recoverable(FirstHalf(s, op), Running(a), ed)
  {
    hide Step, ScriptFor, Recoverable, Running;
    RemovalConcerns(ed, op);
    var half := FirstHalf(s, op);
    if op.AddOutbound? || op.AddInbound? || op.AddUser? {
      if Step(s, Removal(op)).Some? {
        StepStaysRecoverable(s, Removal(op), ed, a, b);
      }
    }
    if Step(s, op).Some? {
      StepStaysRecoverable(s, op, ed, a, b);
    }
    if Step(half, op).Some? {
      StepStaysRecoverable(half, op, ed, a, b);
    }
  }

  /** The removal a conflicting addition is retried with. */
  function Removal(op: Op): Op {
    match op
    case AddOutbound(e) => RemoveOutbound(e.tag)
    case AddInbound(ib) => RemoveInbound(ib.tag)
    case AddUser(t, e, _) => RemoveUser(t, e)
    case _ => op
  }

  lemma RemovalConcerns(ed: Edits, op: Op)
    requires Concerns(ed, op)
    ensures Concerns(ed, Removal(op))
  {
  }

  /** The core after a conflicting addition has removed what was in its way, and nothing more. */
  function FirstHalf(s: Core, op: Op): Core {
    if (op.AddOutbound? || op.AddInbound? || op.AddUser?) && Step(s, op).None? && Step(s, Removal(op)).Some?
    then Step(s, Removal(op)).value
    else s
  }

  /**
   However the core was changed through the runtime API, as long as every change was about something
   the script names, the whole script, with the panel's retry rules, ends in the new state.
   */
  lemma {:induction false} RedoAfterAnyAttempt(done: seq<Op>, s: Core, ed: Edits, a: Config, b: Config)
    requires ScriptFor(ed, a, b) && Recoverable(s, Running(a), ed)
    requires forall op :: op in done ==> Concerns(ed, op)
    requires Run(s, done).Some?
    ensures Recoverable(Run(s, done).value, Running(a), ed)
    ensures LenientRun(Run(s, done).value, Script(ed)) == Some(Running(b))
    decreases |done|
  {
    hide Concerns, Recoverable, Running, Script, ScriptFor, Step;
    if done == [] {
      RedoReachesNew(s, ed, a, b);
    } else {
      assert done[0] in done;
      StepStaysRecoverable(s, done[0], ed, a, b);
      assert forall op :: op in done[1..] ==> op in done;
      RedoAfterAnyAttempt(done[1..], Step(s, done[0]).value, ed, a, b);
    }
  }

  lemma InterruptedAttemptRecovers(done: seq<Op>, ed: Edits, a: Config, b: Config)
    requires ScriptFor(ed, a, b)
    requires forall op :: op in done ==> op in Script(ed)
    requires Run(Running(a), done).Some?
    ensures LenientRun(Run(Running(a), done).value, Script(ed)) == Some(Running(b))
  {
    hide Concerns, Running, Script, ScriptFor, Step;
    forall op | op in done
      ensures Concerns(ed, op)
    {
      ScriptConcerns(ed, op);
    }
    OldIsRecoverable(ed, a, b);
    RedoAfterAnyAttempt(done, Running(a), ed, a, b);
  }

  lemma EmptyScript()
    ensures Script(EmptyEdits) == []
  {
  }

  lemma NonEmptyScript(ed: Edits)
    requires ed != EmptyEdits
    ensures Script(ed) != []
  {
  }

  /** How far a failing call got: nowhere, to the removal of a retry, or all the way with the answer lost. */
  datatype Failure = NoEffect | Halfway | AnswerLost

  /**
   tryHotApply, on a core that may already have been changed, through the runtime API, in what the
   script names.  The API may be down, and the call at position failAt may fail.  True exactly when the
   change is applicable and nothing failed, and then the core runs the new configuration; otherwise
   doing the whole script again still gets there.
   */
  method TryHotApply(core: Core, oldCfg: Config, newCfg: Config, apiUp: bool, failAt: nat, failure: Failure)
    returns (applied: bool, after: Core, ghost ed: Edits)
    requires forall ed :: ScriptFor(ed, oldCfg, newCfg) ==> Recoverable(core, Running(oldCfg), ed)
    ensures HotAppliable(oldCfg, newCfg) ==> ScriptFor(ed, oldCfg, newCfg)
    ensures applied <==> HotAppliable(oldCfg, newCfg) && (Script(ed) == [] || (apiUp && |Script(ed)| <= failAt))
    ensures applied ==> after == Running(newCfg)
    ensures !HotAppliable(oldCfg, newCfg) ==> after == core
    ensures HotAppliable(oldCfg, newCfg) ==> LenientRun(after, Script(ed)) == Some(Running(newCfg))
  {
    hide Running, Script, HotAppliable, EditsFor, LenientStep, FirstHalf, Recoverable, Concerns;
    var diff := ComputeHotDiff(Some(oldCfg), Some(newCfg));
    if diff == null {
      return false, core, EmptyEdits;
    }
    ed := diff.View();
    RedoReachesNew(core, ed, oldCfg, newCfg);
    if diff.Empty() {
      EmptyScript();
      return true, core, ed;
    }
    var ops := Script(diff.View());
    NonEmptyScript(ed);
    after := core;
    if !apiUp {
      return false, after, ed;
    }
    for i := 0 to |ops|
      invariant i <= failAt && Recoverable(after, Running(oldCfg), ed)
      invariant LenientRun(after, ops[i..]) == Some(Running(newCfg))
    {
      assert ops[i..][0] == ops[i] && ops[i..][1..] == ops[i+1..];
      ScriptConcerns(ed, ops[i]);
      RetryStaysRecoverable(after, ops[i], ed, oldCfg, newCfg);
      if i == failAt {
        match failure {
          case NoEffect =>
          case Halfway => after := FirstHalf(after, ops[i]);
          case AnswerLost => after := LenientStep(after, ops[i]).value;
        }
        RedoReachesNew(after, ed, oldCfg, newCfg);
        return false, after, ed;
      }
      after := LenientStep(after, ops[i]).value;
    }
    RedoReachesNew(after, ed, oldCfg, newCfg);
    return true, after, ed;
  }

  /** The core the old configuration was started on is one of those. */
  lemma OldCoreWillDo(oldCfg: Config, newCfg: Config)
    ensures forall ed :: ScriptFor(ed, oldCfg, newCfg) ==> Recoverable(Running(oldCfg), Running(oldCfg), ed)
  {
    hide Running, Recoverable, ScriptFor;
    forall ed | ScriptFor(ed, oldCfg, newCfg)
      ensures Recoverable(Running(oldCfg), Running(oldCfg), ed)
    {
      OldIsRecoverable(ed, oldCfg, newCfg);
    }
  }
}
