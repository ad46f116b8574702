/**
 The collector's own steps keep its invariant, and what follows for every run: the bytes
 reported for an inbound and client never exceed what its mtg processes counted.
 */
module MtgAccounting {
  import opened Prelude
  import opened Text
  import opened MtgConfig
  import opened MtgManager
  import opened MtgReconcile
  import opened MtgTraffic
  import opened MtgEvolution
  import opened MtgCollector

  // ---- one scrape ------------------------------------------------------------------

  lemma GoodLastElsewhere(st: State, pid: nat, m: Meter, token: string, last: map<string, Counters>)
    requires pid < |st.processes| && st.processes[pid].token != token && GoodLast(st.processes, token, last)
    ensures GoodLast(WithMeter(st, pid, m).processes, token, last)
  {
    hide NoOver;
    var ps := WithMeter(st, pid, m).processes;
    forall q: nat | Has(ps, q, token)
      ensures NoOver(ps[q].meter, last) && (Sole(ps, q) ==> last == LastScrape(ps[q].meter))
    {
      assert Has(st.processes, q, token) && q != pid;
      SoleWithMeter(st, pid, m, q);
    }
  }

  lemma SoleWithMeter(st: State, pid: nat, m: Meter, q: nat)
    requires pid < |st.processes|
    ensures Sole(WithMeter(st, pid, m).processes, q) <==> Sole(st.processes, q)
  {
    var ps := WithMeter(st, pid, m).processes;
    assert forall i :: 0 <= i < |ps| ==> ps[i].id == st.processes[i].id;
  }

  lemma WithMeterOwned(st: State, pid: nat, m: Meter)
    requires Owned(st) && pid < |st.processes|
    ensures Owned(WithMeter(st, pid, m))
    ensures DistinctTokens(st.processes) ==> DistinctTokens(WithMeter(st, pid, m).processes)
  {
  }

  lemma KnownWithMeter(st: State, pid: nat, m: Meter, s: Snap)
    requires pid < |st.processes| && Known(st.processes, s)
    ensures Known(WithMeter(st, pid, m).processes, s)
  {
    var q := Owner(st.processes, s);
    assert Has(WithMeter(st, pid, m).processes, q, s.apiToken);
  }

  /** The scraped process comes out of it sound, and comparable with what was just seen. */
  lemma ScrapedIsGood(st: State, pid: nat, token: string, last: map<string, Counters>, users: map<string, StatsUser>)
    requires DistinctTokens(st.processes) && Has(st.processes, pid, token)
    requires GoodMeter(st.processes, pid) && GoodLast(st.processes, token, last)
    requires Answers(st.processes[pid].meter, users)
    ensures var r := WithMeter(st, pid, Scraped(st.processes[pid].meter, last, users)).processes;
      GoodMeter(r, pid) && GoodLast(r, token, Seen(users))
  {
    hide NoOver, Monotone, Exact, Answers, Scraped;
    var m := st.processes[pid].meter;
    var n := Scraped(m, last, users);
    var r := WithMeter(st, pid, n).processes;
    assert NoOver(m, last);
    ScrapeKeepsNoOver(m, last, users);
    NoOverNothing(n, Seen(users));
    ScrapeKeepsMonotone(m, last, users);
    LastAfterScrape(m, last, users);
    SoleWithMeter(st, pid, n, pid);
    if Sole(st.processes, pid) {
      ScrapeKeepsExact(m, users);
    }
    forall q: nat | Has(r, q, token)
      ensures q == pid
    {
    }
  }

  lemma NoOverNothing(m: Meter, last: map<string, Counters>)
    requires NoOver(m, last)
    ensures NoOver(m, map[])
  {
    forall e, up
      ensures At(m.reported, e, up) <= InOut(m.counted, e, up)
    {
      assert At(m.reported, e, up) + Pending(m.shown, last, e, up) <= InOut(m.counted, e, up);
    }
  }

  lemma LastAfterScrape(m: Meter, last: map<string, Counters>, users: map<string, StatsUser>)
    ensures LastScrape(Scraped(m, last, users)) == Seen(users)
  {
  }

  lemma MeterElsewhere(st: State, pid: nat, m: Meter, q: nat)
    requires pid < |st.processes| && q < |st.processes| && q != pid && GoodMeter(st.processes, q)
    ensures GoodMeter(WithMeter(st, pid, m).processes, q)
  {
    hide NoOver, Monotone, Exact;
    SoleWithMeter(st, pid, m, q);
  }

  lemma AnswerKeepsSnaps(sys: System, pid: nat, users: map<string, StatsUser>)
    requires Inv(sys) && Enabled(sys, Answer(pid, users))
    ensures var next := Step(sys, Answer(pid, users)); Owned(next.st) && GoodSnaps(next.st, next.phase)
  {
    hide NoOver, Monotone, Exact, Answers, Known, GoodLast, Owned, GoodMeter, GoodEntries, Unscraped;
    var st, s, rest := sys.st, sys.phase.snaps[0], sys.phase.snaps[1..];
    var m := Scraped(st.processes[pid].meter, s.last, users);
    WithMeterOwned(st, pid, m);
    ScrapedIsGood(st, pid, s.apiToken, s.last, users);
    KnownWithMeter(st, pid, m, s);
    OtherEntryStays(st, pid, m, s, s);
    forall i | 0 <= i < |rest|
      ensures Known(WithMeter(st, pid, m).processes, rest[i]) && SameOrUnscraped(WithMeter(st, pid, m), rest[i])
      ensures GoodLast(WithMeter(st, pid, m).processes, rest[i].apiToken, rest[i].last)
      ensures rest[i].id != s.id
    {
      var x := sys.phase.snaps[i + 1];
      assert rest[i] == x;
      TokenOfOther(st.processes, pid, s, x);
      KnownWithMeter(st, pid, m, x);
      OtherEntryStays(st, pid, m, s, x);
      GoodLastElsewhere(st, pid, m, x.apiToken, x.last);
    }
    assert forall i, j :: 0 <= i < j < |rest| ==>
      rest[i] == sys.phase.snaps[i + 1] && rest[j] == sys.phase.snaps[j + 1];
  }

  /** The process with s's token serves s's inbound, so no other snapshot carries that token. */
  lemma TokenOfOther(ps: seq<Process>, pid: nat, s: Snap, x: Snap)
    requires DistinctTokens(ps) && Has(ps, pid, s.apiToken) && Known(ps, s) && Known(ps, x)
    ensures ps[pid].id == s.id
    ensures x.id != s.id ==> ps[pid].token != x.apiToken
  {
    var p := Owner(ps, s);
    var q := Owner(ps, x);
    assert p == pid;
  }

  lemma OtherEntryStays(st: State, pid: nat, m: Meter, s: Snap, x: Snap)
    requires Has(st.processes, pid, s.apiToken) && Known(st.processes, s)
    requires Owned(st) && DistinctTokens(st.processes) && Owned(WithMeter(st, pid, m))
    requires SameOrUnscraped(st, x) && (x == s || x.id != s.id)
    ensures SameOrUnscraped(WithMeter(st, pid, m), x)
  {
    hide Unscraped, Known;
    TokenOfOther(st.processes, pid, s, s);
    if x.id in st.procs && st.procs[x.id].apiToken != x.apiToken {
      assert st.procs[x.id].pid != pid;
    }
  }

  lemma AnswerKeepsEntries(sys: System, pid: nat, users: map<string, StatsUser>)
    requires Inv(sys) && Enabled(sys, Answer(pid, users))
    ensures var next := Step(sys, Answer(pid, users)); Owned(next.st) && GoodEntries(next.st, next.phase)
  {
    hide NoOver, Monotone, Exact, Answers, Known, GoodLast, GoodMeter, Unscraped, GoodSnaps, Scraped;
    var st, s := sys.st, sys.phase.snaps[0];
    var m := Scraped(st.processes[pid].meter, s.last, users);
    WithMeterOwned(st, pid, m);
    forall id | id in st.procs && st.procs[id].apiToken != s.apiToken
      ensures GoodLast(WithMeter(st, pid, m).processes, st.procs[id].apiToken, st.procs[id].last)
    {
      GoodLastElsewhere(st, pid, m, st.procs[id].apiToken, st.procs[id].last);
    }
  }

  lemma AnswerKeepsInv(sys: System, pid: nat, users: map<string, StatsUser>)
    requires Inv(sys) && Enabled(sys, Answer(pid, users))
    ensures Inv(Step(sys, Answer(pid, users)))
  {
    hide NoOver, Monotone, Exact, Answers, Known, GoodLast, GoodMeter, Unscraped, Scraped, Sole;
    var st, s := sys.st, sys.phase.snaps[0];
    var m := Scraped(st.processes[pid].meter, s.last, users);
    WithMeterOwned(st, pid, m);
    AnswerKeepsSnaps(sys, pid, users);
    AnswerKeepsEntries(sys, pid, users);
    FirstSnapGood(sys);
    ScrapedIsGood(st, pid, s.apiToken, s.last, users);
    forall q | 0 <= q < |st.processes|
      ensures GoodMeter(WithMeter(st, pid, m).processes, q)
    {
      if q != pid {
        MeterElsewhere(st, pid, m, q);
      }
    }
  }

  lemma FirstSnapGood(sys: System)
    requires Inv(sys) && sys.phase.Scraping? && sys.phase.snaps != []
    ensures GoodLast(sys.st.processes, sys.phase.snaps[0].apiToken, sys.phase.snaps[0].last)
    ensures Known(sys.st.processes, sys.phase.snaps[0])
  {
  }

  // ---- write-back, snapshot and the ends of a collection ---------------------------------------

  lemma LastIsGood(sys: System)
    requires Inv(sys) && sys.phase.Writing? && sys.phase.snap.id in sys.st.procs
    ensures GoodLast(sys.st.processes, sys.st.procs[sys.phase.snap.id].apiToken, sys.phase.newLast)
  {
    hide NoOver, Exact, Monotone, GoodMeter, GoodEntries;
    var ps, s, m := sys.st.processes, sys.phase.snap, sys.st.procs[sys.phase.snap.id];
    if m.apiToken != s.apiToken {
      var owner := Owner(ps, s);
      UnscrapedNoOver(ps[m.pid].meter, sys.phase.newLast);
      forall q: nat | Has(ps, q, m.apiToken)
        ensures NoOver(ps[q].meter, sys.phase.newLast) && !Sole(ps, q)
      {
        assert q == m.pid && ps[owner].id == ps[q].id && owner != q;
      }
    }
  }

  lemma WriteBackKeepsEntries(sys: System)
    requires Inv(sys) && sys.phase.Writing?
    ensures var next := Step(sys, WriteBack);
      Owned(next.st) && next.st.processes == sys.st.processes && GoodEntries(next.st, next.phase)
  {
    hide NoOver, Monotone, Exact, GoodLast, GoodMeter, Unscraped, Sole, GoodSnaps;
    var st, s := sys.st, sys.phase.snap;
    if s.id in st.procs {
      LastIsGood(sys);
    }
    var owner := WrittenOwner(sys);
    forall id | id in st.procs && id != s.id
      ensures GoodLast(st.processes, st.procs[id].apiToken, st.procs[id].last)
    {
      assert st.processes[st.procs[id].pid].id == id && st.procs[id].pid != owner;
      assert !InWriting(sys.phase, st.procs[id]);
    }
  }

  lemma WrittenOwner(sys: System) returns (owner: nat)
    requires Inv(sys) && sys.phase.Writing?
    ensures Has(sys.st.processes, owner, sys.phase.snap.apiToken) && sys.st.processes[owner].id == sys.phase.snap.id
  {
    hide NoOver, Monotone, Exact, GoodLast, GoodMeter, Unscraped, Sole, SameOrUnscraped;
    owner := Owner(sys.st.processes, sys.phase.snap);
  }

  lemma WriteBackKeepsSnaps(sys: System)
    requires Inv(sys) && sys.phase.Writing? && Owned(Step(sys, WriteBack).st)
    ensures GoodSnaps(Step(sys, WriteBack).st, Step(sys, WriteBack).phase)
  {
    hide NoOver, Monotone, Exact, GoodLast, GoodMeter, Unscraped, Sole, GoodEntries;
    var next := Step(sys, WriteBack);
    forall i | 0 <= i < |sys.phase.rest|
      ensures SameOrUnscraped(next.st, sys.phase.rest[i])
    {
      assert sys.phase.rest[i].id != sys.phase.snap.id;
    }
  }

  lemma WriteBackKeepsInv(sys: System)
    requires Inv(sys) && sys.phase.Writing?
    ensures Inv(Step(sys, WriteBack))
  {
    hide GoodEntries, GoodSnaps, GoodMeter, DistinctTokens, Owned, Step;
    WriteBackKeepsEntries(sys);
    WriteBackKeepsSnaps(sys);
  }

  lemma SnapshotKeepsInv(sys: System, snaps: seq<Snap>)
    requires Inv(sys) && Enabled(sys, Snapshot(snaps))
    ensures Inv(Step(sys, Snapshot(snaps)))
  {
    hide NoOver, Monotone, Exact, GoodLast, GoodMeter, Unscraped, Sole;
    forall i | 0 <= i < |snaps|
      ensures Known(sys.st.processes, snaps[i]) && SameOrUnscraped(sys.st, snaps[i])
      ensures GoodLast(sys.st.processes, snaps[i].apiToken, snaps[i].last)
    {
      assert SnapOf(sys.st, snaps[i]);
      var m := sys.st.procs[snaps[i].id];
      assert Has(sys.st.processes, m.pid, snaps[i].apiToken) && !InWriting(sys.phase, m);
    }
  }

  lemma DropKeepsInv(sys: System)
    requires Inv(sys) && Enabled(sys, Unreachable)
    ensures Inv(Step(sys, Unreachable))
  {
    hide NoOver, Monotone, Exact, GoodLast, GoodMeter, Unscraped, Sole, Known, SameOrUnscraped;
    var rest := sys.phase.snaps[1..];
    assert forall i :: 0 <= i < |rest| ==> rest[i] == sys.phase.snaps[i + 1];
  }

  lemma StepKeepsInv(sys: System, ev: Event)
    requires Inv(sys) && Enabled(sys, ev)
    ensures Inv(Step(sys, ev))
  {
    hide Inv, Do, Counted, Reset, Harmless, Continues, Possible;
    InvParts(sys);
    match ev
    case Manage(call) =>
      CallContinues(sys.st, call);
      ContinuesKeepsInv(sys, Do(sys.st, call));
    case Count(pid, e, up, down) =>
      var m := sys.st.processes[pid].meter;
      CountIsHarmless(m, e, up, down);
      MeterChangeContinues(sys.st, pid, Counted(m, e, up, down));
      ContinuesKeepsInv(sys, WithMeter(sys.st, pid, Counted(m, e, up, down)));
    case Forget(pid, e) =>
      var m := sys.st.processes[pid].meter;
      ResetIsHarmless(m, e);
      MeterChangeContinues(sys.st, pid, Reset(m, e));
      ContinuesKeepsInv(sys, WithMeter(sys.st, pid, Reset(m, e)));
    case Snapshot(snaps) => SnapshotKeepsInv(sys, snaps);
    case Unreachable => DropKeepsInv(sys);
    case Answer(pid, users) => AnswerKeepsInv(sys, pid, users);
    case WriteBack => WriteBackKeepsInv(sys);
    case Finish => FinishKeepsInv(sys);
  }

  lemma InvParts(sys: System)
    requires Inv(sys)
    ensures Owned(sys.st) && DistinctTokens(sys.st.processes)
  {
  }

  lemma FinishKeepsInv(sys: System)
    requires Inv(sys) && Enabled(sys, Finish)
    ensures Inv(Step(sys, Finish))
  {
    hide NoOver, Monotone, Exact, GoodLast, GoodMeter, Unscraped, Sole, Known;
  }

  // ---- sums over the processes of an inbound -----------------------------------------------------

  function Share(p: Process, id: Int64, m: map<string, Counters>, e: string, up: bool): nat {
    if p.id == id then At(m, e, up) else 0
  }

  function SumReported(ps: seq<Process>, id: Int64, e: string, up: bool): nat {
    if ps == [] then 0
    else
      var p := ps[|ps| - 1];
      SumReported(ps[..|ps| - 1], id, e, up) + Share(p, id, p.meter.reported, e, up)
  }

  /** All bytes the processes of inbound id ever counted for client e: up came in from it, down went out to it. */
  function SumCounted(ps: seq<Process>, id: Int64, e: string, up: bool): nat {
    if ps == [] then 0
    else
      var p := ps[|ps| - 1];
      SumCounted(ps[..|ps| - 1], id, e, up) + (if p.id == id then InOut(p.meter.counted, e, up) else 0)
  }

  /** All bytes the collector ever reported for inbound id and client e. */
  function LogSum(log: seq<Report>, id: Int64, e: string, up: bool): nat {
    if log == [] then 0
    else
      var r := log[|log| - 1];
      LogSum(log[..|log| - 1], id, e, up) + (if r.id == id then At(r.deltas, e, up) else 0)
  }

  lemma {:induction false} SameReportedSum(a: seq<Process>, b: seq<Process>, id: Int64, e: string, up: bool)
    requires |a| <= |b|
    requires forall i :: 0 <= i < |a| ==> a[i].id == b[i].id && a[i].meter.reported == b[i].meter.reported
    requires forall i :: |a| <= i < |b| ==> b[i].meter.reported == map[]
    ensures SumReported(b, id, e, up) == SumReported(a, id, e, up)
    decreases |b|
  {
    if b != [] {
      var n := |b| - 1;
      if |a| == |b| {
        SameReportedSum(a[..n], b[..n], id, e, up);
      } else {
        SameReportedSum(a, b[..n], id, e, up);
      }
    }
  }

  lemma {:induction false} OneReportedMore(ps: seq<Process>, pid: nat, m: Meter, d: map<string, Counters>,
                                           id: Int64, e: string, up: bool)
    requires pid < |ps| && m.reported == AddUp(ps[pid].meter.reported, d)
    ensures SumReported(ps[pid := ps[pid].(meter := m)], id, e, up)
      == SumReported(ps, id, e, up) + Share(ps[pid], id, d, e, up)
    decreases |ps|
  {
    hide AddUp, At;
    var n := |ps| - 1;
    var q := ps[pid := ps[pid].(meter := m)];
    AddUpAt(ps[pid].meter.reported, d, e, up);
    if pid == n {
      assert q[..n] == ps[..n];
    } else {
      OneReportedMore(ps[..n], pid, m, d, id, e, up);
      assert q[..n] == ps[..n][pid := ps[pid].(meter := m)];
    }
  }

  lemma {:induction false} ReportedBelowCounted(ps: seq<Process>, id: Int64, e: string, up: bool)
    requires forall pid :: 0 <= pid < |ps| ==> NoOver(ps[pid].meter, map[])
    ensures SumReported(ps, id, e, up) <= SumCounted(ps, id, e, up)
  {
    if ps != [] {
      var n := |ps| - 1;
      ReportedBelowCounted(ps[..n], id, e, up);
      assert At(ps[n].meter.reported, e, up) + Pending(ps[n].meter.shown, map[], e, up)
        <= InOut(ps[n].meter.counted, e, up);
    }
  }

  lemma {:induction false} SoleSum(ps: seq<Process>, pid: nat, id: Int64, e: string, up: bool)
    requires pid < |ps| && ps[pid].id == id
    requires forall q :: 0 <= q < |ps| && q != pid ==> ps[q].id != id
    ensures SumReported(ps, id, e, up) == At(ps[pid].meter.reported, e, up)
    decreases |ps|
  {
    var n := |ps| - 1;
    if pid == n {
      NoShare(ps[..n], id, e, up);
    } else {
      SoleSum(ps[..n], pid, id, e, up);
    }
  }

  lemma {:induction false} NoShare(ps: seq<Process>, id: Int64, e: string, up: bool)
    requires forall q :: 0 <= q < |ps| ==> ps[q].id != id
    ensures SumReported(ps, id, e, up) == 0
  {
    if ps != [] {
      NoShare(ps[..|ps| - 1], id, e, up);
    }
  }

  // ---- every run -------------------------------------------------------------------------------------

  const Begin := System(Fresh, Idle, [])

  /** What was reported is what the processes are recorded to have had reported. */
  predicate Agrees(sys: System, id: Int64, e: string, up: bool) {
    LogSum(sys.log, id, e, up) == SumReported(sys.st.processes, id, e, up)
  }

  lemma StepKeepsAgreement(sys: System, ev: Event, id: Int64, e: string, up: bool)
    requires Inv(sys) && Enabled(sys, ev) && Agrees(sys, id, e, up)
    ensures Agrees(Step(sys, ev), id, e, up)
  {
    hide Inv, Do, Possible, Continues;
    InvParts(sys);
    match ev
    case Manage(call) =>
      CallContinues(sys.st, call);
      ContinuesSameSum(sys.st, Do(sys.st, call), id, e, up);
    case Count(pid, x, u, d) =>
      var m := sys.st.processes[pid].meter;
      CountIsHarmless(m, x, u, d);
      MeterChangeContinues(sys.st, pid, Counted(m, x, u, d));
      ContinuesSameSum(sys.st, WithMeter(sys.st, pid, Counted(m, x, u, d)), id, e, up);
    case Forget(pid, x) =>
      var m := sys.st.processes[pid].meter;
      ResetIsHarmless(m, x);
      MeterChangeContinues(sys.st, pid, Reset(m, x));
      ContinuesSameSum(sys.st, WithMeter(sys.st, pid, Reset(m, x)), id, e, up);
    case Answer(pid, users) => AnswerKeepsAgreement(sys, pid, users, id, e, up);
    case _ =>
  }

  lemma ContinuesSameSum(a: State, b: State, id: Int64, e: string, up: bool)
    requires Continues(a, b)
    ensures SumReported(a.processes, id, e, up) == SumReported(b.processes, id, e, up)
  {
    hide NoOver, Unscraped, Monotone, Owned, Entries;
    forall i | 0 <= i < |a.processes|
      ensures a.processes[i].id == b.processes[i].id && a.processes[i].meter.reported == b.processes[i].meter.reported
    {
      assert LivesOn(a.processes[i], b.processes[i]);
    }
    SameReportedSum(a.processes, b.processes, id, e, up);
  }

  lemma LogNext(log: seq<Report>, r: Report, id: Int64, e: string, up: bool)
    ensures LogSum(log + [r], id, e, up) == LogSum(log, id, e, up) + (if r.id == id then At(r.deltas, e, up) else 0)
  {
    assert (log + [r])[..|log + [r]| - 1] == log;
  }

  lemma AnswerIs(sys: System, pid: nat, users: map<string, StatsUser>)
    requires Inv(sys) && Enabled(sys, Answer(pid, users))
    ensures Owned(sys.st) && pid < |sys.st.processes| && sys.phase.Scraping? && sys.phase.snaps != []
    ensures var s, ps := sys.phase.snaps[0], sys.st.processes;
      var next := Step(sys, Answer(pid, users));
      && ps[pid].id == s.id
      && next.log == sys.log + [Report(s.id, s.tag, Deltas(s.last, Seen(users)))]
      && next.st.processes == ps[pid := ps[pid].(meter := Scraped(ps[pid].meter, s.last, users))]
  {
    hide Inv, NoOver, Answers, Scraped, Deltas;
    InvParts(sys);
    FirstSnapGood(sys);
    TokenOfOther(sys.st.processes, pid, sys.phase.snaps[0], sys.phase.snaps[0]);
  }

  lemma AnswerKeepsAgreement(sys: System, pid: nat, users: map<string, StatsUser>, id: Int64, e: string, up: bool)
    requires Inv(sys) && Enabled(sys, Answer(pid, users)) && Agrees(sys, id, e, up)
    ensures Agrees(Step(sys, Answer(pid, users)), id, e, up)
  {
    hide Inv, Step, Enabled, LogSum, SumReported, Deltas, AddUp, At;
    AnswerIs(sys, pid, users);
    var s, ps := sys.phase.snaps[0], sys.st.processes;
    var d := Deltas(s.last, Seen(users));
    OneReportedMore(ps, pid, Scraped(ps[pid].meter, s.last, users), d, id, e, up);
    LogNext(sys.log, Report(s.id, s.tag, d), id, e, up);
  }

  ghost predicate NextSystem(a: System, b: System) {
    Owned(a.st) && exists ev :: Enabled(a, ev) && b == Step(a, ev)
  }

  ghost predicate Run(trace: seq<System>) {
    && trace != [] && trace[0] == Begin
    && forall i :: 0 <= i < |trace| - 1 ==> NextSystem(trace[i], trace[i + 1])
  }

  lemma BeginIsGood(id: Int64, e: string, up: bool)
    ensures Inv(Begin) && Agrees(Begin, id, e, up)
  {
  }

  lemma {:induction false} RunKeepsInv(trace: seq<System>, id: Int64, e: string, up: bool)
    requires Run(trace)
    ensures Inv(trace[|trace| - 1]) && Agrees(trace[|trace| - 1], id, e, up)
  {
    hide Inv, Agrees, Step, Enabled;
    if |trace| == 1 {
      BeginIsGood(id, e, up);
    } else {
      var n := |trace| - 1;
      var front, a, b := trace[..n], trace[n - 1], trace[n];
      forall i | 0 <= i < n - 1
        ensures NextSystem(front[i], front[i + 1])
      {
        assert front[i] == trace[i] && front[i + 1] == trace[i + 1];
      }
      RunKeepsInv(front, id, e, up);
      assert NextSystem(a, b);
      var ev :| Enabled(a, ev) && b == Step(a, ev);
      StepKeepsInv(a, ev);
      StepKeepsAgreement(a, ev, id, e, up);
    }
  }

  /** Whatever the interleaving, no more bytes are reported for a client of an inbound than were counted. */
  lemma NeverOverCounts(trace: seq<System>, id: Int64, e: string, up: bool)
    requires Run(trace)
    ensures var sys := trace[|trace| - 1];
      LogSum(sys.log, id, e, up) <= SumCounted(sys.st.processes, id, e, up)
  {
    hide NextSystem, NoOver, GoodSnaps, GoodEntries, Monotone, Exact;
    RunKeepsInv(trace, id, e, up);
    var ps := trace[|trace| - 1].st.processes;
    forall pid | 0 <= pid < |ps|
      ensures NoOver(ps[pid].meter, map[])
    {
      assert GoodMeter(ps, pid);
    }
    ReportedBelowCounted(ps, id, e, up);
  }

  /**
   With one process for the inbound all along, and the client in each of its scrapes with a
   counter that never restarted, the reported bytes are the last scraped value minus the first.
   */
  lemma ExactWithoutReplacement(trace: seq<System>, pid: nat, e: string, up: bool)
    requires Run(trace)
    requires var ps := trace[|trace| - 1].st.processes;
      && Sole(ps, pid)
      && e !in ps[pid].meter.resets && ps[pid].meter.scrapes != []
      && forall i :: 0 <= i < |ps[pid].meter.scrapes| ==> e in ps[pid].meter.scrapes[i]
    ensures var sys := trace[|trace| - 1];
      var p := sys.st.processes[pid];
      LogSum(sys.log, p.id, e, up) == At(p.meter.scrapes[|p.meter.scrapes| - 1], e, up) - At(p.meter.scrapes[0], e, up)
  {
    hide NextSystem, NoOver, GoodSnaps, GoodEntries;
    var sys := trace[|trace| - 1];
    var p := sys.st.processes[pid];
    RunKeepsInv(trace, p.id, e, up);
    assert GoodMeter(sys.st.processes, pid);
    assert Rising(p.meter, e);
    DeltaSumTelescopes(p.meter.scrapes, e, up);
    SoleSum(sys.st.processes, pid, p.id, e, up);
    assert At(p.meter.reported, e, up) == DeltaSum(p.meter.scrapes, e, up);
  }
}
