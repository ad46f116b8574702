/**
 The online tracker against the full history of its calls: with a fixed grace period and a clock
 that never runs backwards, pruning loses nothing a full record would still list.
 */
module OnlineHistory {
  import opened Prelude
  import opened Text
  import opened OnlineTracker

  function Run(calls: seq<Call>, grace: Int64): State {
    if calls == [] then Empty else Refresh(Run(calls[..|calls| - 1], grace), calls[|calls| - 1], grace)
  }

  predicate ClockForward(calls: seq<Call>) {
    forall i, j :: 0 <= i < j < |calls| ==> calls[i].now <= calls[j].now
  }

  /** e was active in a call less than grace ago. */
  predicate OnlineIn(calls: seq<Call>, e: string, grace: Int64) {
    exists i :: 0 <= i < |calls| && e in calls[i].emails && calls[|calls| - 1].now - calls[i].now < grace
  }

  predicate ActiveIn(calls: seq<Call>, tag: string, grace: Int64) {
    exists i :: 0 <= i < |calls| && tag in calls[i].tags && calls[|calls| - 1].now - calls[i].now < grace
  }

  // ---- one kind of activity -------------------------------------------------------

  /** When each call happened and what it named. */
  datatype Beat = Beat(names: seq<string>, now: Int64)

  function Emails(calls: seq<Call>): seq<Beat> {
    seq(|calls|, i requires 0 <= i < |calls| => Beat(calls[i].emails, calls[i].now))
  }

  function Tags(calls: seq<Call>): seq<Beat> {
    seq(|calls|, i requires 0 <= i < |calls| => Beat(calls[i].tags, calls[i].now))
  }

  function Pruned(beats: seq<Beat>, grace: Int64): map<string, Int64> {
    if beats == [] then map[]
    else
      var b := beats[|beats| - 1];
      Within(Touched(Pruned(beats[..|beats| - 1], grace), b.names, b.now), b.now, grace)
  }

  predicate Forward(beats: seq<Beat>) {
    forall i, j :: 0 <= i < j < |beats| ==> beats[i].now <= beats[j].now
  }

  /** The time of the last beat that names x. */
  function LastSeen(beats: seq<Beat>, x: string): Option<Int64> {
    if beats == [] then None
    else if x in beats[|beats| - 1].names then Some(beats[|beats| - 1].now)
    else LastSeen(beats[..|beats| - 1], x)
  }

  /** The pruned map holds exactly the last sightings still within grace. */
  lemma {:induction false} PrunedIsRecent(beats: seq<Beat>, grace: Int64, x: string)
    requires beats != [] && Forward(beats)
    ensures var m, now, seen := Pruned(beats, grace), beats[|beats| - 1].now, LastSeen(beats, x);
      && (x in m <==> seen.Some? && now - seen.value < grace)
      && (x in m ==> m[x] == seen.value)
  {
    var n := |beats| - 1;
    if n > 0 {
      PrunedIsRecent(beats[..n], grace, x);
      assert beats[n - 1].now <= beats[n].now;
    }
  }

  lemma {:induction false} LastSeenIsLast(beats: seq<Beat>, x: string)
    requires Forward(beats)
    ensures LastSeen(beats, x).None? ==> forall i :: 0 <= i < |beats| ==> x !in beats[i].names
    ensures LastSeen(beats, x).Some? ==>
      (exists i :: 0 <= i < |beats| && x in beats[i].names && beats[i].now == LastSeen(beats, x).value)
      && forall i :: 0 <= i < |beats| && x in beats[i].names ==> beats[i].now <= LastSeen(beats, x).value
  {
    if beats != [] {
      var n := |beats| - 1;
      if x in beats[n].names {
        assert beats[n].now == LastSeen(beats, x).value;
      } else {
        LastSeenIsLast(beats[..n], x);
      }
    }
  }

  /** Exactly what a full record would list. */
  lemma PrunedRefines(beats: seq<Beat>, grace: Int64, x: string)
    requires beats != [] && Forward(beats)
    ensures x in Pruned(beats, grace) <==>
      exists i :: 0 <= i < |beats| && x in beats[i].names && beats[|beats| - 1].now - beats[i].now < grace
  {
    hide Pruned;
    PrunedIsRecent(beats, grace, x);
    LastSeenIsLast(beats, x);
  }

  lemma {:induction false} RunIsPruned(calls: seq<Call>, grace: Int64)
    ensures Run(calls, grace).lastOnline == Pruned(Emails(calls), grace)
    ensures Run(calls, grace).lastActive == Pruned(Tags(calls), grace)
  {
    hide Attributed, AttributedAt, Touched, Within;
    if calls != [] {
      var n := |calls| - 1;
      RunIsPruned(calls[..n], grace);
      assert Emails(calls)[..n] == Emails(calls[..n]);
      assert Tags(calls)[..n] == Tags(calls[..n]);
    }
  }

  /** After any run of calls the tracker lists exactly the emails and tags of the last grace period. */
  lemma RunRefinesHistory(calls: seq<Call>, grace: Int64)
    requires calls != [] && ClockForward(calls)
    ensures forall e :: e in Run(calls, grace).lastOnline <==> OnlineIn(calls, e, grace)
    ensures forall tag :: tag in Run(calls, grace).lastActive <==> ActiveIn(calls, tag, grace)
  {
    hide Run, Pruned;
    RunIsPruned(calls, grace);
    forall e
      ensures e in Run(calls, grace).lastOnline <==> OnlineIn(calls, e, grace)
    {
      PrunedRefines(Emails(calls), grace, e);
      SameBeats(calls, Emails(calls), e, grace);
    }
    forall tag
      ensures tag in Run(calls, grace).lastActive <==> ActiveIn(calls, tag, grace)
    {
      PrunedRefines(Tags(calls), grace, tag);
      SameTagBeats(calls, Tags(calls), tag, grace);
    }
  }

  lemma SameBeats(calls: seq<Call>, beats: seq<Beat>, e: string, grace: Int64)
    requires beats == Emails(calls) && calls != []
    ensures OnlineIn(calls, e, grace) <==>
      exists i :: 0 <= i < |beats| && e in beats[i].names && beats[|beats| - 1].now - beats[i].now < grace
  {
    if OnlineIn(calls, e, grace) {
      var i :| 0 <= i < |calls| && e in calls[i].emails && calls[|calls| - 1].now - calls[i].now < grace;
      assert e in beats[i].names;
    }
    if exists i :: 0 <= i < |beats| && e in beats[i].names && beats[|beats| - 1].now - beats[i].now < grace {
      var i :| 0 <= i < |beats| && e in beats[i].names && beats[|beats| - 1].now - beats[i].now < grace;
      assert e in calls[i].emails;
    }
  }

  lemma SameTagBeats(calls: seq<Call>, beats: seq<Beat>, tag: string, grace: Int64)
    requires beats == Tags(calls) && calls != []
    ensures ActiveIn(calls, tag, grace) <==>
      exists i :: 0 <= i < |beats| && tag in beats[i].names && beats[|beats| - 1].now - beats[i].now < grace
  {
    if ActiveIn(calls, tag, grace) {
      var i :| 0 <= i < |calls| && tag in calls[i].tags && calls[|calls| - 1].now - calls[i].now < grace;
      assert tag in beats[i].names;
    }
    if exists i :: 0 <= i < |beats| && tag in beats[i].names && beats[|beats| - 1].now - beats[i].now < grace {
      var i :| 0 <= i < |beats| && tag in beats[i].names && beats[|beats| - 1].now - beats[i].now < grace;
      assert tag in calls[i].tags;
    }
  }

  // ---- session tags -------------------------------------------------------------------

  /** Attributions never outlive their client's online state. */
  lemma {:induction false} SessionsAreOnline(calls: seq<Call>, grace: Int64)
    ensures Run(calls, grace).sessionTag.Keys <= Run(calls, grace).lastOnline.Keys
    ensures Paired(Run(calls, grace))
  {
    hide Touched, Within;
    if calls != [] {
      SessionsAreOnline(calls[..|calls| - 1], grace);
    }
  }

  /** Every active email is attributed to one of the call's active tags. */
  predicate AttributesActive(c: Call) {
    forall e :: e in c.emails && e != "" ==> Attributes(c.sessions, e) && c.sessions[e] in c.tags
  }

  /** No attribution names a tag the call did not see active. */
  ghost predicate AttributesOnlyActive(c: Call) {
    forall e :: Attributes(c.sessions, e) ==> c.sessions[e] in c.tags
  }

  /** Each online client's session tag is active, and has been at least as lately as the client. */
  predicate Secure(st: State) {
    forall e :: e in st.lastOnline && e != "" ==>
      e in st.sessionTag && st.sessionTag[e] in st.lastActive && st.lastActive[st.sessionTag[e]] >= st.lastOnline[e]
  }

  /** What holds of the times in a state reached at time now. */
  ghost predicate Past(st: State, now: Int64) {
    (forall e :: e in st.lastOnline ==> st.lastOnline[e] <= now)
      && (forall t :: t in st.lastActive ==> st.lastActive[t] <= now)
  }

  /** Online, with an active session tag. */
  predicate SessionActive(st: State, e: string) {
    e in st.lastOnline && e != "" ==> e in st.sessionTag && st.sessionTag[e] in st.lastActive
  }

  /** One key after a refresh of its map. */
  lemma RefreshedAt(m: map<string, Int64>, keys: seq<string>, now: Int64, grace: Int64, x: string)
    ensures var r := Within(Touched(m, keys, now), now, grace);
      && (x in r <==> if x in keys then 0 < grace else x in m && now - m[x] < grace)
      && (x in r ==> r[x] == if x in keys then now else m[x])
  {
  }

  lemma AttributedOne(m: map<string, string>, sessions: map<string, string>, online: set<string>, e: string)
    ensures var r := Attributed(m, sessions, online);
      && (e in r <==> e in online && (e in m || Attributes(sessions, e)))
      && (e in r ==> r[e] == if Attributes(sessions, e) then sessions[e] else m[e])
  {
  }

  lemma RefreshKeepsSecureAt(st: State, c: Call, grace: Int64, e: string)
    requires Secure(st) && Past(st, c.now) && AttributesActive(c) && AttributesOnlyActive(c)
    requires e in Refresh(st, c, grace).lastOnline && e != ""
    ensures var r := Refresh(st, c, grace);
      e in r.sessionTag && r.sessionTag[e] in r.lastActive && r.lastActive[r.sessionTag[e]] >= r.lastOnline[e]
  {
    hide Touched, Within, Attributed, AttributedAt;
    var r := Refresh(st, c, grace);
    RefreshedAt(st.lastOnline, c.emails, c.now, grace, e);
    AttributedOne(st.sessionTag, c.sessions, r.lastOnline.Keys, e);
    if !Attributes(c.sessions, e) {
      assert e !in c.emails;
      assert e in st.lastOnline;
    }
    var tag := if Attributes(c.sessions, e) then c.sessions[e] else st.sessionTag[e];
    RefreshedAt(st.lastActive, c.tags, c.now, grace, tag);
  }

  lemma RefreshKeepsSecure(st: State, c: Call, grace: Int64)
    requires Secure(st) && Past(st, c.now) && AttributesActive(c) && AttributesOnlyActive(c)
    ensures Secure(Refresh(st, c, grace)) && Past(Refresh(st, c, grace), c.now)
  {
    hide Touched, Within, Attributed, AttributedAt, AttributesActive, AttributesOnlyActive;
    var r := Refresh(st, c, grace);
    forall e | e in r.lastOnline && e != ""
      ensures e in r.sessionTag && r.sessionTag[e] in r.lastActive && r.lastActive[r.sessionTag[e]] >= r.lastOnline[e]
    {
      RefreshKeepsSecureAt(st, c, grace, e);
    }
    forall x
      ensures x in r.lastOnline ==> r.lastOnline[x] <= c.now
      ensures x in r.lastActive ==> r.lastActive[x] <= c.now
    {
      RefreshedAt(st.lastOnline, c.emails, c.now, grace, x);
      RefreshedAt(st.lastActive, c.tags, c.now, grace, x);
    }
  }

  lemma {:induction false} RunIsSecure(calls: seq<Call>, grace: Int64)
    requires calls != [] && ClockForward(calls)
    requires forall i :: 0 <= i < |calls| ==> AttributesActive(calls[i]) && AttributesOnlyActive(calls[i])
    ensures Secure(Run(calls, grace)) && Past(Run(calls, grace), calls[|calls| - 1].now)
  {
    hide Refresh, AttributesActive, AttributesOnlyActive, Secure;
    var n := |calls| - 1;
    if n > 0 {
      RunIsSecure(calls[..n], grace);
      assert calls[n - 1].now <= calls[n].now;
    } else {
      EmptyIsSecure();
      assert calls[..0] == [];
    }
    RefreshKeepsSecure(Run(calls[..n], grace), calls[n], grace);
  }

  lemma EmptyIsSecure()
    ensures Secure(Empty) && forall now :: Past(Empty, now)
  {
  }

  /** With every attribution naming an active tag of its call, an online client's session tag is active. */
  lemma SessionTagsAreActive(calls: seq<Call>, grace: Int64, e: string)
    requires calls != [] && ClockForward(calls)
    requires forall i :: 0 <= i < |calls| ==> AttributesActive(calls[i]) && AttributesOnlyActive(calls[i])
    ensures SessionActive(Run(calls, grace), e)
  {
    hide Run;
    RunIsSecure(calls, grace);
  }

  lemma RunOfTwo(c: Call, d: Call, grace: Int64)
    ensures Run([c, d], grace) == Refresh(Refresh(Empty, c, grace), d, grace)
  {
    hide Refresh;
    assert [c, d][..|[c, d]| - 1] == [c] && [c][..|[c]| - 1] == [];
    assert Run([], grace) == Empty;
    assert Run([c], grace) == Refresh(Empty, c, grace);
  }

  /** Attributing the active emails alone is not enough: a stray attribution names an idle tag. */
  lemma StrayAttributionBreaks(c: Call, d: Call)
    requires c == Call(["a"], ["t"], map["a" := "t"], 0) && d == Call([], [], map["a" := "u"], 1)
    ensures ClockForward([c, d]) && AttributesActive(c) && AttributesActive(d)
    ensures !SessionActive(Run([c, d], 10), "a")
  {
    hide Touched, Within, Attributed, AttributedAt;
    RunOfTwo(c, d, 10);
    var first := Refresh(Empty, c, 10);
    RefreshedAt(map[], c.emails, 0, 10, "a");
    RefreshedAt(first.lastOnline, d.emails, 1, 10, "a");
    var second := Refresh(first, d, 10);
    AttributedOne(first.sessionTag, d.sessions, second.lastOnline.Keys, "a");
    RefreshedAt(map[], c.tags, 0, 10, "u");
    RefreshedAt(first.lastActive, d.tags, 1, 10, "u");
  }

  function Prune(now: Int64): Call { Call([], [], map[], now) }

  /** A state keeps its session tags active under any later pruning exactly when it is secure. */
  lemma SecureIsExact(st: State, now: Int64, grace: Int64)
    requires Past(st, now) && now < MaxInt64 - grace && 0 < grace
    requires forall e :: e in st.lastOnline ==> now - st.lastOnline[e] < grace
    requires forall t :: t in st.lastActive ==> now - st.lastActive[t] < grace
    ensures Secure(st) <==>
      forall later: Int64, e :: later >= now ==> SessionActive(Refresh(st, Prune(later), grace), e)
  {
    hide Touched, Within, Attributed, AttributedAt;
    if Secure(st) {
      forall later: Int64, e | later >= now
        ensures SessionActive(Refresh(st, Prune(later), grace), e)
      {
        PrunedAt(st, later, grace, e);
      }
    } else {
      var e :| e in st.lastOnline && e != "" &&
        !(e in st.sessionTag && st.sessionTag[e] in st.lastActive
          && st.lastActive[st.sessionTag[e]] >= st.lastOnline[e]);
      var later: Int64 := if e in st.sessionTag && st.sessionTag[e] in st.lastActive
        then st.lastActive[st.sessionTag[e]] + grace else now;
      PrunedAt(st, later, grace, e);
      assert !SessionActive(Refresh(st, Prune(later), grace), e);
    }
  }

  /** What pruning later leaves of one client. */
  lemma PrunedAt(st: State, later: Int64, grace: Int64, e: string)
    ensures var r := Refresh(st, Prune(later), grace);
      && (e in r.lastOnline <==> e in st.lastOnline && later - st.lastOnline[e] < grace)
      && (e in r.lastOnline && e in r.sessionTag ==> e in st.sessionTag && r.sessionTag[e] == st.sessionTag[e])
      && (e in r.lastOnline && e in st.sessionTag ==> e in r.sessionTag)
      && (e in st.sessionTag ==>
            var tag := st.sessionTag[e];
            tag in r.lastActive <==> tag in st.lastActive && later - st.lastActive[tag] < grace)
  {
    hide Touched, Within, Attributed, AttributedAt;
    var c := Prune(later);
    RefreshedAt(st.lastOnline, c.emails, later, grace, e);
    AttributedOne(st.sessionTag, c.sessions, Refresh(st, c, grace).lastOnline.Keys, e);
    if e in st.sessionTag {
      RefreshedAt(st.lastActive, c.tags, later, grace, st.sessionTag[e]);
    }
  }

  // ---- exactly which calls are safe ------------------------------------------------------

  /** The call attributes every active email, and only to tags it saw active. */
  ghost predicate GoodCall(c: Call) { AttributesActive(c) && AttributesOnlyActive(c) }

  ghost predicate GoodCalls(calls: seq<Call>) {
    forall i :: 0 <= i < |calls| ==> GoodCall(calls[i])
  }

  /** A first client, attributed to another tag than the call will name for it. */
  function Earlier(e: string, tag: string, now: Int64): Call {
    Call([e], [tag], map[e := tag], now)
  }

  function OtherTag(tag: string): string { if tag == "t" then "u" else "t" }

  /** A call that is not good leaves some client's session tag idle, right away or after one good call. */
  lemma BadCallBreaks(c: Call, grace: Int64) returns (before: seq<Call>, e: string)
    requires 0 < grace && !GoodCall(c)
    ensures |before| <= 1 && GoodCalls(before) && ClockForward(before + [c])
    ensures !SessionActive(Refresh(Run(before, grace), c, grace), e)
  {
    hide Run, Refresh, SessionActive, ClockForward, GoodCall;
    NotGood(c);
    ShortRuns(c, c);
    if !AttributesActive(c) {
      e :| e in c.emails && e != "" && !(Attributes(c.sessions, e) && c.sessions[e] in c.tags);
      before := [];
      UnattributedBreaks(c, grace, e);
    } else {
      e :| Attributes(c.sessions, e) && c.sessions[e] !in c.tags;
      before := [Earlier(e, OtherTag(c.sessions[e]), c.now)];
      StrayBreaks(c, grace, e);
      ShortRuns(before[0], c);
    }
  }

  lemma NotGood(c: Call)
    ensures GoodCall(c) <==> AttributesActive(c) && AttributesOnlyActive(c)
  {
  }

  lemma ShortRuns(d: Call, c: Call)
    requires d.now <= c.now
    ensures ClockForward([] + [c]) && ClockForward([d] + [c])
  {
  }

  lemma UnattributedBreaks(c: Call, grace: Int64, e: string)
    requires 0 < grace && e in c.emails && e != "" && !(Attributes(c.sessions, e) && c.sessions[e] in c.tags)
    ensures !SessionActive(Refresh(Run([], grace), c, grace), e)
  {
    hide Touched, Within, Attributed, AttributedAt;
    var r := Refresh(Empty, c, grace);
    RefreshedAt(map[], c.emails, c.now, grace, e);
    AttributedOne(map[], c.sessions, r.lastOnline.Keys, e);
    if e in r.sessionTag {
      RefreshedAt(map[], c.tags, c.now, grace, r.sessionTag[e]);
    }
  }

  lemma StrayBreaks(c: Call, grace: Int64, e: string)
    requires 0 < grace && Attributes(c.sessions, e) && c.sessions[e] !in c.tags
    ensures var d := Earlier(e, OtherTag(c.sessions[e]), c.now);
      GoodCall(d) && !SessionActive(Refresh(Run([d], grace), c, grace), e)
  {
    hide Touched, Within, Attributed, AttributedAt;
    var d := Earlier(e, OtherTag(c.sessions[e]), c.now);
    var first := Refresh(Empty, d, grace);
    assert [d][..0] == [] && Run([d], grace) == first by { assert Run([], grace) == Empty; }
    RefreshedAt(map[], d.emails, c.now, grace, e);
    RefreshedAt(first.lastOnline, c.emails, c.now, grace, e);
    AttributedOne(first.sessionTag, c.sessions, Refresh(first, c, grace).lastOnline.Keys, e);
    RefreshedAt(map[], d.tags, c.now, grace, c.sessions[e]);
    RefreshedAt(first.lastActive, c.tags, c.now, grace, c.sessions[e]);
  }

  lemma RunAppend(calls: seq<Call>, c: Call, grace: Int64)
    ensures Run(calls + [c], grace) == Refresh(Run(calls, grace), c, grace)
  {
    assert (calls + [c])[..|calls + [c]| - 1] == calls;
  }

  lemma SecureMeansActive(st: State, e: string)
    requires Secure(st)
    ensures SessionActive(st, e)
  {
  }

  /** Without a grace period nobody stays online, so nothing can go wrong. */
  lemma NoGraceNobodyOnline(st: State, c: Call, grace: Int64)
    requires grace <= 0 && Past(st, c.now)
    ensures Refresh(st, c, grace).lastOnline == map[] && Secure(Refresh(st, c, grace))
  {
    hide Touched, Within, Attributed, AttributedAt;
    forall e
      ensures e !in Refresh(st, c, grace).lastOnline
    {
      RefreshedAt(st.lastOnline, c.emails, c.now, grace, e);
    }
  }

  /** A call keeps every secure state secure exactly when it is good, or there is no grace period. */
  lemma GoodCallIsExact(c: Call, grace: Int64)
    ensures (forall st :: Secure(st) && Past(st, c.now) ==> Secure(Refresh(st, c, grace)))
      <==> GoodCall(c) || grace <= 0
  {
    hide Refresh, AttributesActive, AttributesOnlyActive, Secure, Past;
    if GoodCall(c) {
      forall st | Secure(st) && Past(st, c.now)
        ensures Secure(Refresh(st, c, grace))
      {
        RefreshKeepsSecure(st, c, grace);
      }
    } else if grace <= 0 {
      forall st | Secure(st) && Past(st, c.now)
        ensures Secure(Refresh(st, c, grace))
      {
        NoGraceNobodyOnline(st, c, grace);
      }
    } else {
      var before, e := BadCallBreaks(c, grace);
      var st := Run(before, grace);
      GoodRunIsSecure(before, c, grace);
      assert !Secure(Refresh(st, c, grace)) by {
        if Secure(Refresh(st, c, grace)) {
          SecureMeansActive(Refresh(st, c, grace), e);
        }
      }
    }
  }

  lemma GoodRunIsSecure(calls: seq<Call>, c: Call, grace: Int64)
    requires GoodCalls(calls) && ClockForward(calls + [c])
    ensures Secure(Run(calls, grace)) && Past(Run(calls, grace), c.now)
  {
    hide Run, AttributesActive, AttributesOnlyActive, Secure, Past;
    EmptyIsSecure();
    NothingRun(grace);
    assert forall i :: 0 <= i < |calls| ==> (calls + [c])[i] == calls[i];
    if calls != [] {
      RunIsSecure(calls, grace);
      assert (calls + [c])[|calls| - 1].now <= (calls + [c])[|calls|].now;
      LaterIsPast(Run(calls, grace), calls[|calls| - 1].now, c.now);
    }
  }

  lemma LaterIsPast(st: State, a: Int64, b: Int64)
    requires Past(st, a) && a <= b
    ensures Past(st, b)
  {
  }

  lemma NothingRun(grace: Int64)
    ensures Run([], grace) == Empty
  {
  }

  /**
   The same over runs, as a caller sees it: whatever good calls came before, every session tag is
   active afterwards, exactly when the call is good, or there is no grace period.
   */
  lemma GoodCallIsExactOverRuns(c: Call, grace: Int64)
    ensures (forall before, e :: GoodCalls(before) && ClockForward(before + [c]) ==>
              SessionActive(Run(before + [c], grace), e))
      <==> GoodCall(c) || grace <= 0
  {
    hide Run, AttributesActive, AttributesOnlyActive, Secure, Past, SessionActive;
    if GoodCall(c) || grace <= 0 {
      forall before, e | GoodCalls(before) && ClockForward(before + [c])
        ensures SessionActive(Run(before + [c], grace), e)
      {
        GoodRunIsSecure(before, c, grace);
        GoodCallIsExact(c, grace);
        RunAppend(before, c, grace);
        SecureMeansActive(Run(before + [c], grace), e);
      }
    } else {
      var before, e := BadCallBreaks(c, grace);
      RunAppend(before, c, grace);
    }
  }

  // ---- exactly which runs keep a session active ---------------------------------------------

  /** The tag e was last attributed to since it came online; None when it is offline or never was attributed. */
  function LastTag(calls: seq<Call>, e: string, grace: Int64): Option<string> {
    if calls == [] || !OnlineIn(calls, e, grace) then None
    else
      var c := calls[|calls| - 1];
      if Attributes(c.sessions, e) then Some(c.sessions[e]) else LastTag(calls[..|calls| - 1], e, grace)
  }

  /** The tracker's session tag is that last attribution, on every run. */
  lemma {:induction false} SessionTagIsLast(calls: seq<Call>, e: string, grace: Int64)
    requires ClockForward(calls)
    ensures var m := Run(calls, grace).sessionTag;
      LastTag(calls, e, grace) == if e in m then Some(m[e]) else None
  {
    hide Touched, Within, Attributed, AttributedAt, OnlineIn;
    if calls != [] {
      var n := |calls| - 1;
      SessionTagIsLast(calls[..n], e, grace);
      RunRefinesHistory(calls, grace);
      AttributedOne(Run(calls[..n], grace).sessionTag, calls[n].sessions, Run(calls, grace).lastOnline.Keys, e);
    }
  }

  /** On any given run, a client's session tag is active exactly when its last attribution was to a tag still active. */
  lemma SessionActiveIsExact(calls: seq<Call>, e: string, grace: Int64)
    requires calls != [] && ClockForward(calls) && e != ""
    ensures SessionActive(Run(calls, grace), e) <==>
      (OnlineIn(calls, e, grace) ==>
         LastTag(calls, e, grace).Some? && ActiveIn(calls, LastTag(calls, e, grace).value, grace))
  {
    hide Run, OnlineIn, ActiveIn, LastTag;
    RunRefinesHistory(calls, grace);
    SessionTagIsLast(calls, e, grace);
  }

  /** Call k attributes e to a named tag, and no later one does. */
  ghost predicate LastAttribution(calls: seq<Call>, e: string, k: nat) {
    && k < |calls| && e != "" && e in calls[k].sessions && calls[k].sessions[e] != ""
    && forall j :: k < j < |calls| ==> e == "" || e !in calls[j].sessions || calls[j].sessions[e] == ""
  }

  lemma LastAttributionNext(calls: seq<Call>, e: string, k: nat, c: Call)
    ensures LastAttribution(calls, e, k) && !Attributes(c.sessions, e) ==> LastAttribution(calls + [c], e, k)
    ensures Attributes(c.sessions, e) ==> LastAttribution(calls + [c], e, |calls|)
  {
    var all := calls + [c];
    assert all[|calls|] == c;
    assert forall i :: 0 <= i < |calls| ==> all[i] == calls[i];
  }

  lemma AttributedHere(st: State, c: Call, grace: Int64, e: string)
    ensures var r := Refresh(st, c, grace);
      && (e in r.sessionTag ==> if Attributes(c.sessions, e) then r.sessionTag[e] == c.sessions[e]
                                else e in st.sessionTag && r.sessionTag[e] == st.sessionTag[e])
      && (e in r.sessionAt ==> if Attributes(c.sessions, e) then r.sessionAt[e] == c.now
                               else e in st.sessionAt && r.sessionAt[e] == st.sessionAt[e])
  {
    hide Touched, Within;
  }

  /** A session has a client and a tag, both named, of the last attribution to a named tag, and that call's time. */
  lemma {:induction false} SessionIsLastAttribution(calls: seq<Call>, e: string, grace: Int64)
    ensures var st := Run(calls, grace);
      && (e in st.sessionTag ==>
            exists k: nat :: LastAttribution(calls, e, k) && st.sessionTag[e] == calls[k].sessions[e])
      && (e in st.sessionAt ==> exists k: nat :: LastAttribution(calls, e, k) && st.sessionAt[e] == calls[k].now)
  {
    hide Refresh, Attributes;
    if calls != [] {
      var n := |calls| - 1;
      var front, c := calls[..n], calls[n];
      var before, st := Run(front, grace), Run(calls, grace);
      assert calls == front + [c];
      SessionIsLastAttribution(front, e, grace);
      AttributedHere(before, c, grace, e);
      LastAttributionNext(front, e, n, c);
      if Attributes(c.sessions, e) {
        assert LastAttribution(calls, e, n);
      } else {
        if e in st.sessionTag {
          var k: nat :| LastAttribution(front, e, k) && before.sessionTag[e] == front[k].sessions[e];
          LastAttributionNext(front, e, k, c);
          assert LastAttribution(calls, e, k) && calls[k] == front[k];
        }
        if e in st.sessionAt {
          var k: nat :| LastAttribution(front, e, k) && before.sessionAt[e] == front[k].now;
          LastAttributionNext(front, e, k, c);
          assert LastAttribution(calls, e, k) && calls[k] == front[k];
        }
      }
    }
  }
}
