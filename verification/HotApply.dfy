/**
 Applying a hot diff to a running core (tryHotApply, internal/web/service/xray.go): removals
 first, then additions, then the routing section.  The main results: the script is legal at
 every step and ends in the state of the new configuration, and redoing it from any state an
 interrupted attempt can leave behind ends there too.
 */
module HotApply {
  import opened Prelude
  import opened JsonValues
  import opened HotConfig
  import opened HotDiff

  // ---- the script in application order ----------------------------------------

  function RemoveUserOps(us: seq<UserOp>): seq<Op> {
    if us == [] then [] else [RemoveUser(us[0].tag, us[0].email)] + RemoveUserOps(us[1..])
  }

  function RemoveInboundOps(tags: seq<string>): seq<Op> {
    if tags == [] then [] else [RemoveInbound(tags[0])] + RemoveInboundOps(tags[1..])
  }

  function RemoveOutboundOps(tags: seq<string>): seq<Op> {
    if tags == [] then [] else [RemoveOutbound(tags[0])] + RemoveOutboundOps(tags[1..])
  }

  function AddOutboundOps(es: seq<OutboundEntry>): seq<Op> {
    if es == [] then [] else [AddOutbound(es[0])] + AddOutboundOps(es[1..])
  }

  function AddInboundOps(ibs: seq<InboundConfig>): seq<Op> {
    if ibs == [] then [] else [AddInbound(ibs[0])] + AddInboundOps(ibs[1..])
  }

  function UserValue(u: UserOp): Json {
    if u.user.Some? then u.user.value else Null
  }

  function AddUserOps(us: seq<UserOp>): seq<Op> {
    if us == [] then [] else [AddUser(us[0].tag, us[0].email, UserValue(us[0]))] + AddUserOps(us[1..])
  }

  function RoutingOps(routing: Option<Raw>): seq<Op> {
    if routing.None? then [] else [SetRouting(routing.value)]
  }

  function Script(ed: Edits): seq<Op> {
    RemoveUserOps(ed.removedUsers)
      + (RemoveInboundOps(ed.removedInboundTags)
      + (RemoveOutboundOps(ed.removedOutboundTags)
      + (AddOutboundOps(ed.addedOutbounds)
      + (AddInboundOps(ed.addedInbounds)
      + (AddUserOps(ed.addedUsers)
      + RoutingOps(ed.routingConfig))))))
  }

  // ---- what each phase does to the tables --------------------------------------

  /** Handler h after the removals in us that name tag t. */
  function Without(h: Handler, t: string, us: seq<UserOp>): Handler {
    if h.settings.Users? then
      WithUsers(h, map e | e in h.settings.users && !Names(us, t, e) :: h.settings.users[e])
    else h
  }

  function DropUsers(m: map<string, Handler>, us: seq<UserOp>): map<string, Handler> {
    map t | t in m :: Without(m[t], t, us)
  }

  function UpsertInbounds(m: map<string, Handler>, ibs: seq<InboundConfig>): map<string, Handler>
    decreases |ibs|
  {
    if ibs == [] then m else UpsertInbounds(m[ibs[0].tag := HandlerOf(ibs[0])], ibs[1..])
  }

  function UpsertOutbounds(m: map<string, Json>, es: seq<OutboundEntry>): map<string, Json>
    decreases |es|
  {
    if es == [] then m else UpsertOutbounds(m[es[0].tag := es[0].value], es[1..])
  }

  /** Users of tag t after the additions in us that name t. */
  function With(users: map<string, Json>, t: string, us: seq<UserOp>): map<string, Json>
    decreases |us|
  {
    if us == [] then users
    else With(if us[0].tag == t then users[us[0].email := UserValue(us[0])] else users, t, us[1..])
  }

  function PutUsers(m: map<string, Handler>, us: seq<UserOp>): map<string, Handler> {
    map t | t in m ::
      if m[t].settings.Users? then WithUsers(m[t], With(m[t].settings.users, t, us)) else m[t]
  }

  predicate HasUser(m: map<string, Handler>, t: string, e: string) {
    t in m && m[t].settings.Users? && e in m[t].settings.users
  }

  predicate HasUserList(m: map<string, Handler>, t: string) {
    t in m && m[t].settings.Users?
  }

  lemma DropUsersCons(m: map<string, Handler>, us: seq<UserOp>)
    requires us != []
    ensures var u := us[0];
      var m1 := if HasUser(m, u.tag, u.email)
                then m[u.tag := WithUsers(m[u.tag], m[u.tag].settings.users - {u.email})] else m;
      DropUsers(m1, us[1..]) == DropUsers(m, us)
  {
    var u := us[0];
    var m1 := if HasUser(m, u.tag, u.email)
              then m[u.tag := WithUsers(m[u.tag], m[u.tag].settings.users - {u.email})] else m;
    forall t, e
      ensures Names(us, t, e) <==> (u.tag == t && u.email == e) || Names(us[1..], t, e)
    {
      if Names(us, t, e) {
        var i :| 0 <= i < |us| && us[i].tag == t && us[i].email == e;
        if i > 0 {
          assert us[1..][i - 1] == us[i];
        }
      }
      if Names(us[1..], t, e) {
        var i :| 0 <= i < |us[1..]| && us[1..][i].tag == t && us[1..][i].email == e;
        assert us[i + 1] == us[1..][i];
      }
    }
    forall t | t in m
      ensures Without(m1[t], t, us[1..]) == Without(m[t], t, us)
    {
      if m[t].settings.Users? {
        assert Without(m1[t], t, us[1..]).settings.users == Without(m[t], t, us).settings.users;
      }
    }
  }

  lemma {:induction false} RemoveUsersPhase(c: Core, us: seq<UserOp>)
    ensures LenientRun(c, RemoveUserOps(us)) == Some(c.(inbounds := DropUsers(c.inbounds, us)))
    ensures DistinctUsers(us) && (forall i :: 0 <= i < |us| ==> HasUser(c.inbounds, us[i].tag, us[i].email)) ==>
      Run(c, RemoveUserOps(us)) == Some(c.(inbounds := DropUsers(c.inbounds, us)))
    decreases |us|
  {
    if us == [] {
      forall t | t in c.inbounds
        ensures Without(c.inbounds[t], t, us) == c.inbounds[t]
      {
        if c.inbounds[t].settings.Users? {
          assert Without(c.inbounds[t], t, us).settings.users == c.inbounds[t].settings.users;
        }
      }
      assert DropUsers(c.inbounds, us) == c.inbounds;
    } else {
      DropUsersCons(c.inbounds, us);
      var op := RemoveUser(us[0].tag, us[0].email);
      var c1 := LenientStep(c, op).value;
      RemoveUsersPhase(c1, us[1..]);
      assert RemoveUserOps(us)[0] == op && RemoveUserOps(us)[1..] == RemoveUserOps(us[1..]);
      if DistinctUsers(us) && (forall i :: 0 <= i < |us| ==> HasUser(c.inbounds, us[i].tag, us[i].email)) {
        assert HasUser(c.inbounds, us[0].tag, us[0].email);
        forall i | 0 <= i < |us[1..]|
          ensures HasUser(c1.inbounds, us[1..][i].tag, us[1..][i].email)
        {
          assert us[1..][i] == us[i + 1];
        }
      }
    }
  }

  lemma {:induction false} RemoveInboundsPhase(c: Core, tags: seq<string>)
    ensures LenientRun(c, RemoveInboundOps(tags)) == Some(c.(inbounds := c.inbounds - (set t | t in tags)))
    ensures NoDup(tags) && (forall t :: t in tags ==> t in c.inbounds) ==>
      Run(c, RemoveInboundOps(tags)) == Some(c.(inbounds := c.inbounds - (set t | t in tags)))
    decreases |tags|
  {
    if tags == [] {
      assert c.inbounds - (set t | t in tags) == c.inbounds;
    } else {
      var op := RemoveInbound(tags[0]);
      var c1 := LenientStep(c, op).value;
      RemoveInboundsPhase(c1, tags[1..]);
      assert RemoveInboundOps(tags)[0] == op && RemoveInboundOps(tags)[1..] == RemoveInboundOps(tags[1..]);
      assert c1.inbounds == c.inbounds - {tags[0]};
      assert (set t | t in tags) == {tags[0]} + (set t | t in tags[1..]);
      assert c1.inbounds - (set t | t in tags[1..]) == c.inbounds - (set t | t in tags);
      if NoDup(tags) && (forall t :: t in tags ==> t in c.inbounds) {
        assert tags[0] in c.inbounds;
        forall t | t in tags[1..]
          ensures t in c1.inbounds
        {
          assert t in tags;
        }
      }
    }
  }

  lemma {:induction false} RemoveOutboundsPhase(c: Core, tags: seq<string>)
    ensures LenientRun(c, RemoveOutboundOps(tags)) == Some(c.(outbounds := c.outbounds - (set t | t in tags)))
    ensures NoDup(tags) && (forall t :: t in tags ==> t in c.outbounds) ==>
      Run(c, RemoveOutboundOps(tags)) == Some(c.(outbounds := c.outbounds - (set t | t in tags)))
    decreases |tags|
  {
    if tags == [] {
      assert c.outbounds - (set t | t in tags) == c.outbounds;
    } else {
      var op := RemoveOutbound(tags[0]);
      var c1 := LenientStep(c, op).value;
      RemoveOutboundsPhase(c1, tags[1..]);
      assert RemoveOutboundOps(tags)[0] == op && RemoveOutboundOps(tags)[1..] == RemoveOutboundOps(tags[1..]);
      assert c1.outbounds == c.outbounds - {tags[0]};
      assert (set t | t in tags) == {tags[0]} + (set t | t in tags[1..]);
      assert c1.outbounds - (set t | t in tags[1..]) == c.outbounds - (set t | t in tags);
      if NoDup(tags) && (forall t :: t in tags ==> t in c.outbounds) {
        assert tags[0] in c.outbounds;
        forall t | t in tags[1..]
          ensures t in c1.outbounds
        {
          assert t in tags;
        }
      }
    }
  }

  lemma {:induction false} AddOutboundsPhase(c: Core, es: seq<OutboundEntry>)
    ensures LenientRun(c, AddOutboundOps(es)) == Some(c.(outbounds := UpsertOutbounds(c.outbounds, es)))
    ensures DistinctOutbounds(es) && (forall i :: 0 <= i < |es| ==> es[i].tag !in c.outbounds) ==>
      Run(c, AddOutboundOps(es)) == Some(c.(outbounds := UpsertOutbounds(c.outbounds, es)))
    decreases |es|
  {
    if es != [] {
      var op := AddOutbound(es[0]);
      assert (c.outbounds - {es[0].tag})[es[0].tag := es[0].value] == c.outbounds[es[0].tag := es[0].value];
      var c1 := LenientStep(c, op).value;
      AddOutboundsPhase(c1, es[1..]);
      assert AddOutboundOps(es)[0] == op && AddOutboundOps(es)[1..] == AddOutboundOps(es[1..]);
    }
  }

  lemma {:induction false} AddInboundsPhase(c: Core, ibs: seq<InboundConfig>)
    ensures LenientRun(c, AddInboundOps(ibs)) == Some(c.(inbounds := UpsertInbounds(c.inbounds, ibs)))
    ensures DistinctInbounds(ibs) && (forall i :: 0 <= i < |ibs| ==> ibs[i].tag !in c.inbounds) ==>
      Run(c, AddInboundOps(ibs)) == Some(c.(inbounds := UpsertInbounds(c.inbounds, ibs)))
    decreases |ibs|
  {
    if ibs != [] {
      var op := AddInbound(ibs[0]);
      assert (c.inbounds - {ibs[0].tag})[ibs[0].tag := HandlerOf(ibs[0])] ==
        c.inbounds[ibs[0].tag := HandlerOf(ibs[0])];
      var c1 := LenientStep(c, op).value;
      AddInboundsPhase(c1, ibs[1..]);
      assert AddInboundOps(ibs)[0] == op && AddInboundOps(ibs)[1..] == AddInboundOps(ibs[1..]);
    }
  }

  /** The table after one addition. */
  function PutUser(m: map<string, Handler>, u: UserOp): map<string, Handler>
    requires HasUserList(m, u.tag)
  {
    m[u.tag := WithUsers(m[u.tag], m[u.tag].settings.users[u.email := UserValue(u)])]
  }

  lemma AddUserStep(c: Core, u: UserOp)
    requires HasUserList(c.inbounds, u.tag)
    ensures LenientStep(c, AddUser(u.tag, u.email, UserValue(u))) == Some(c.(inbounds := PutUser(c.inbounds, u)))
    ensures !HasUser(c.inbounds, u.tag, u.email) ==>
      Step(c, AddUser(u.tag, u.email, UserValue(u))) == Some(c.(inbounds := PutUser(c.inbounds, u)))
  {
    var users := c.inbounds[u.tag].settings.users;
    if u.email in users {
      assert (users - {u.email})[u.email := UserValue(u)] == users[u.email := UserValue(u)];
      var c1 := Step(c, RemoveUser(u.tag, u.email)).value;
      var c2 := Step(c1, AddUser(u.tag, u.email, UserValue(u))).value;
      assert c2.inbounds == PutUser(c.inbounds, u);
    }
  }

  lemma PutUsersCons(m: map<string, Handler>, us: seq<UserOp>)
    requires us != [] && HasUserList(m, us[0].tag)
    ensures PutUsers(PutUser(m, us[0]), us[1..]) == PutUsers(m, us)
  {
  }

  lemma {:induction false} AddUsersPhase(c: Core, us: seq<UserOp>)
    requires forall i :: 0 <= i < |us| ==> HasUserList(c.inbounds, us[i].tag)
    ensures LenientRun(c, AddUserOps(us)) == Some(c.(inbounds := PutUsers(c.inbounds, us)))
    ensures DistinctUsers(us) && (forall i :: 0 <= i < |us| ==> !HasUser(c.inbounds, us[i].tag, us[i].email)) ==>
      Run(c, AddUserOps(us)) == Some(c.(inbounds := PutUsers(c.inbounds, us)))
    decreases |us|
  {
    if us == [] {
      assert PutUsers(c.inbounds, us) == c.inbounds;
    } else {
      AddUserStep(c, us[0]);
      PutUsersCons(c.inbounds, us);
      var c1 := c.(inbounds := PutUser(c.inbounds, us[0]));
      assert forall i :: 0 <= i < |us[1..]| ==> us[1..][i] == us[i + 1];
      AddUsersPhase(c1, us[1..]);
      assert AddUserOps(us)[1..] == AddUserOps(us[1..]);
    }
  }

  // ---- pointwise readings of the upserts ---------------------------------------

  lemma {:induction false} UpsertInboundsAt(m: map<string, Handler>, ibs: seq<InboundConfig>, t: string)
    requires DistinctInbounds(ibs)
    ensures (forall i :: 0 <= i < |ibs| ==> ibs[i].tag != t) ==>
      (t in UpsertInbounds(m, ibs) <==> t in m) && (t in m ==> UpsertInbounds(m, ibs)[t] == m[t])
    ensures forall i :: 0 <= i < |ibs| && ibs[i].tag == t ==>
      t in UpsertInbounds(m, ibs) && UpsertInbounds(m, ibs)[t] == HandlerOf(ibs[i])
    decreases |ibs|
  {
    if ibs != [] {
      var m1 := m[ibs[0].tag := HandlerOf(ibs[0])];
      UpsertInboundsAt(m1, ibs[1..], t);
      forall i | 0 <= i < |ibs| && ibs[i].tag == t
        ensures t in UpsertInbounds(m, ibs) && UpsertInbounds(m, ibs)[t] == HandlerOf(ibs[i])
      {
        if i > 0 {
          assert ibs[1..][i - 1] == ibs[i];
        }
      }
    }
  }

  lemma {:induction false} UpsertOutboundsAt(m: map<string, Json>, es: seq<OutboundEntry>, t: string)
    requires DistinctOutbounds(es)
    ensures (forall i :: 0 <= i < |es| ==> es[i].tag != t) ==>
      (t in UpsertOutbounds(m, es) <==> t in m) && (t in m ==> UpsertOutbounds(m, es)[t] == m[t])
    ensures forall i :: 0 <= i < |es| && es[i].tag == t ==>
      t in UpsertOutbounds(m, es) && UpsertOutbounds(m, es)[t] == es[i].value
    decreases |es|
  {
    if es != [] {
      var m1 := m[es[0].tag := es[0].value];
      UpsertOutboundsAt(m1, es[1..], t);
      forall i | 0 <= i < |es| && es[i].tag == t
        ensures t in UpsertOutbounds(m, es) && UpsertOutbounds(m, es)[t] == es[i].value
      {
        if i > 0 {
          assert es[1..][i - 1] == es[i];
        }
      }
    }
  }

  lemma {:induction false} WithAt(users: map<string, Json>, t: string, us: seq<UserOp>, e: string)
    requires DistinctUsers(us)
    ensures !Names(us, t, e) ==>
      (e in With(users, t, us) <==> e in users) && (e in users ==> With(users, t, us)[e] == users[e])
    ensures forall i :: 0 <= i < |us| && us[i].tag == t && us[i].email == e ==>
      e in With(users, t, us) && With(users, t, us)[e] == UserValue(us[i])
    decreases |us|
  {
    if us != [] {
      var users1 := if us[0].tag == t then users[us[0].email := UserValue(us[0])] else users;
      WithAt(users1, t, us[1..], e);
      if Names(us[1..], t, e) {
        var i :| 0 <= i < |us[1..]| && us[1..][i].tag == t && us[1..][i].email == e;
        assert us[i + 1] == us[1..][i];
        assert Names(us, t, e);
      }
      if us[0].tag == t && us[0].email == e {
        assert Names(us, t, e);
        assert forall i :: 0 <= i < |us[1..]| ==> us[1..][i] == us[i + 1];
        assert !Names(us[1..], t, e);
      }
      forall i | 0 <= i < |us| && us[i].tag == t && us[i].email == e
        ensures e in With(users, t, us) && With(users, t, us)[e] == UserValue(us[i])
      {
        if i > 0 {
          assert us[1..][i - 1] == us[i];
        }
      }
    }
  }
}
