/**
 The traffic collector as a step system (CollectTraffic, internal/mtproto/manager.go): it takes a
 snapshot under the lock, scrapes without it, and writes back under it, while the manager may
 replace, reload or remove any process in between.  Over every interleaving the reported bytes
 stay below the counted ones, and are exact where no process was replaced.
 */
module MtgCollector {
  import opened Prelude
  import opened Text
  import opened MtgConfig
  import opened MtgManager
  import opened MtgReconcile
  import opened MtgTraffic
  import opened MtgEvolution

  // ---- the system ----------------------------------------------------------------

  /** What one scrape added to the collector's result. */
  datatype Report = Report(id: Int64, tag: string, deltas: map<string, Counters>)

  datatype Phase =
    | Idle
    | Scraping(snaps: seq<Snap>)
    | Writing(snap: Snap, newLast: map<string, Counters>, rest: seq<Snap>)

  datatype System = System(st: State, phase: Phase, log: seq<Report>)

  datatype Event =
    | Manage(call: Call)
    | Count(pid: nat, email: string, bytesIn: nat, bytesOut: nat)
    | Forget(pid: nat, email: string)
    | Snapshot(snaps: seq<Snap>)
    | Unreachable
    | Answer(pid: nat, users: map<string, StatsUser>)
    | WriteBack
    | Finish

  predicate SnapOf(st: State, s: Snap) {
    && s.id in st.procs
    && var m := st.procs[s.id];
       s == Snap(s.id, m.apiPort, m.apiToken, m.tag, m.last)
  }

  predicate DistinctSnaps(snaps: seq<Snap>) {
    forall i, j :: 0 <= i < j < |snaps| ==> snaps[i].id != snaps[j].id
  }

  /** A snapshot holds every entry whose process runs, once, in any order. */
  predicate IsSnapshot(st: State, snaps: seq<Snap>)
    requires Owned(st)
  {
    && DistinctSnaps(snaps)
    && (forall i :: 0 <= i < |snaps| ==>
          SnapOf(st, snaps[i]) && st.processes[st.procs[snaps[i].id].pid].running)
    && (forall id :: id in st.procs && st.processes[st.procs[id].pid].running ==>
          exists i :: 0 <= i < |snaps| && snaps[i].id == id)
  }

  predicate Enabled(sys: System, ev: Event)
    requires Owned(sys.st)
  {
    var ps := sys.st.processes;
    match ev
    case Manage(call) => Possible(sys.st, call) && FreshTokens(ps, call)
    case Count(pid, _, _, _) => pid < |ps|
    case Forget(pid, _) => pid < |ps|
    case Snapshot(snaps) => sys.phase.Idle? && IsSnapshot(sys.st, snaps)
    case Unreachable => sys.phase.Scraping? && sys.phase.snaps != []
    case Answer(pid, users) =>
      && sys.phase.Scraping? && sys.phase.snaps != []
      && pid < |ps| && ps[pid].port == sys.phase.snaps[0].apiPort && ps[pid].token == sys.phase.snaps[0].apiToken
      && Answers(ps[pid].meter, users)
    case WriteBack => sys.phase.Writing?
    case Finish => sys.phase.Scraping? && sys.phase.snaps == []
  }

  function WithMeter(st: State, pid: nat, m: Meter): State
    requires pid < |st.processes|
  {
    st.(processes := st.processes[pid := st.processes[pid].(meter := m)])
  }

  function Step(sys: System, ev: Event): System
    requires Owned(sys.st) && Enabled(sys, ev)
  {
    match ev
    case Manage(call) => sys.(st := Do(sys.st, call))
    case Count(pid, e, bytesIn, bytesOut) =>
      sys.(st := WithMeter(sys.st, pid, Counted(sys.st.processes[pid].meter, e, bytesIn, bytesOut)))
    case Forget(pid, e) => sys.(st := WithMeter(sys.st, pid, Reset(sys.st.processes[pid].meter, e)))
    case Snapshot(snaps) => sys.(phase := Scraping(snaps))
    case Unreachable => sys.(phase := Scraping(sys.phase.snaps[1..]))
    case Answer(pid, users) =>
      var s := sys.phase.snaps[0];
      System(WithMeter(sys.st, pid, Scraped(sys.st.processes[pid].meter, s.last, users)),
             Writing(s, Seen(users), sys.phase.snaps[1..]),
             sys.log + [Report(s.id, s.tag, Deltas(s.last, Seen(users)))])
    case WriteBack =>
      var id := sys.phase.snap.id;
      var procs := sys.st.procs;
      System(if id in procs then sys.st.(procs := procs[id := procs[id].(last := sys.phase.newLast)]) else sys.st,
             Scraping(sys.phase.rest), sys.log)
    case Finish => sys.(phase := Idle)
  }

  // ---- the invariant -----------------------------------------------------------------

  predicate DistinctTokens(ps: seq<Process>) {
    forall i, j :: 0 <= i < j < |ps| ==> ps[i].token != ps[j].token
  }

  predicate Has(ps: seq<Process>, pid: nat, token: string) {
    pid < |ps| && ps[pid].token == token
  }

  /** No other process serves the same inbound. */
  predicate Sole(ps: seq<Process>, pid: nat) {
    pid < |ps| && forall q :: 0 <= q < |ps| && q != pid ==> ps[q].id != ps[pid].id
  }

  /** Comparing the process with this token against last reports no byte twice, and none is lost where it is alone. */
  ghost predicate GoodLast(ps: seq<Process>, token: string, last: map<string, Counters>) {
    forall pid: nat :: Has(ps, pid, token) ==>
      NoOver(ps[pid].meter, last) && (Sole(ps, pid) ==> last == LastScrape(ps[pid].meter))
  }

  /** Some process was started for this snapshot's inbound, with its port and token. */
  ghost predicate Known(ps: seq<Process>, s: Snap) {
    exists pid: nat :: Has(ps, pid, s.apiToken) && ps[pid].id == s.id
  }

  ghost predicate GoodMeter(ps: seq<Process>, pid: nat)
    requires pid < |ps|
  {
    var m := ps[pid].meter;
    NoOver(m, map[]) && Monotone(m) && (Sole(ps, pid) ==> Exact(m))
  }

  /** The process that serves s.id now is the one s was taken of, or one nobody has scraped. */
  ghost predicate SameOrUnscraped(st: State, s: Snap)
    requires Owned(st)
  {
    s.id in st.procs ==>
      st.procs[s.id].apiToken == s.apiToken || Unscraped(st.processes[st.procs[s.id].pid].meter)
  }

  function Waiting(phase: Phase): seq<Snap> {
    match phase
    case Idle => []
    case Scraping(snaps) => snaps
    case Writing(_, _, rest) => rest
  }

  /** The entry whose last is about to be written back. */
  predicate InWriting(phase: Phase, m: Managed) {
    phase.Writing? && phase.snap.apiToken == m.apiToken
  }

  ghost predicate GoodSnaps(st: State, phase: Phase)
    requires Owned(st)
  {
    var snaps := Waiting(phase);
    && DistinctSnaps(snaps)
    && (forall i :: 0 <= i < |snaps| ==>
          Known(st.processes, snaps[i]) && SameOrUnscraped(st, snaps[i])
          && GoodLast(st.processes, snaps[i].apiToken, snaps[i].last))
    && (phase.Writing? ==>
          Known(st.processes, phase.snap) && SameOrUnscraped(st, phase.snap)
          && GoodLast(st.processes, phase.snap.apiToken, phase.newLast)
          && forall i :: 0 <= i < |snaps| ==> snaps[i].id != phase.snap.id)
  }

  ghost predicate GoodEntries(st: State, phase: Phase)
    requires Owned(st)
  {
    forall id :: id in st.procs ==>
      InWriting(phase, st.procs[id]) || GoodLast(st.processes, st.procs[id].apiToken, st.procs[id].last)
  }

  ghost predicate Inv(sys: System) {
    && Owned(sys.st) && DistinctTokens(sys.st.processes)
    && (forall pid :: 0 <= pid < |sys.st.processes| ==> GoodMeter(sys.st.processes, pid))
    && GoodSnaps(sys.st, sys.phase)
    && GoodEntries(sys.st, sys.phase)
  }

  // ---- steps that only let the processes live on ------------------------------------------

  /** Nothing the arithmetic needs gets worse. */
  ghost predicate Harmless(m: Meter, n: Meter) {
    && n.reported == m.reported && n.scrapes == m.scrapes
    && (forall last :: NoOver(m, last) ==> NoOver(n, last))
    && (Unscraped(m) ==> Unscraped(n))
    && (Monotone(m) ==> Monotone(n))
  }

  ghost predicate LivesOn(p: Process, q: Process) {
    p.id == q.id && p.port == q.port && p.token == q.token && Harmless(p.meter, q.meter)
  }

  ghost predicate Continues(a: State, b: State) {
    && Owned(a) && Owned(b) && |a.processes| <= |b.processes| && DistinctTokens(b.processes)
    && (forall i :: 0 <= i < |a.processes| ==> LivesOn(a.processes[i], b.processes[i]))
    && (forall i :: |a.processes| <= i < |b.processes| ==> b.processes[i].meter == NewMeter)
    && Entries(a, b)
  }

  lemma SoleBefore(a: State, b: State, pid: nat)
    requires Continues(a, b) && pid < |a.processes| && Sole(b.processes, pid)
    ensures Sole(a.processes, pid)
  {
    hide Harmless;
    forall q | 0 <= q < |a.processes| && q != pid
      ensures a.processes[q].id != a.processes[pid].id
    {
      assert LivesOn(a.processes[q], b.processes[q]) && LivesOn(a.processes[pid], b.processes[pid]);
    }
  }

  lemma GoodLastContinues(a: State, b: State, owner: nat, token: string, last: map<string, Counters>)
    requires Continues(a, b) && Has(a.processes, owner, token) && GoodLast(a.processes, token, last)
    ensures GoodLast(b.processes, token, last)
  {
    hide NoOver, Unscraped, Monotone, Entries, Owned;
    assert LivesOn(a.processes[owner], b.processes[owner]);
    forall pid: nat | Has(b.processes, pid, token)
      ensures NoOver(b.processes[pid].meter, last)
      ensures Sole(b.processes, pid) ==> last == LastScrape(b.processes[pid].meter)
    {
      assert pid == owner;
      if Sole(b.processes, pid) {
        SoleBefore(a, b, pid);
      }
    }
  }

  lemma NewMeterIsGood(last: map<string, Counters>)
    ensures NoOver(NewMeter, last) && Unscraped(NewMeter) && Monotone(NewMeter) && Exact(NewMeter)
    ensures LastScrape(NewMeter) == map[]
  {
  }

  lemma MeterContinues(a: State, b: State, pid: nat)
    requires Continues(a, b) && pid < |b.processes|
    requires pid < |a.processes| ==> GoodMeter(a.processes, pid)
    ensures GoodMeter(b.processes, pid)
  {
    hide NoOver, Unscraped, Monotone, Entries, Owned, DistinctTokens;
    if pid < |a.processes| {
      assert LivesOn(a.processes[pid], b.processes[pid]);
      if Sole(b.processes, pid) {
        SoleBefore(a, b, pid);
      }
    } else {
      NewMeterIsGood(map[]);
    }
  }

  lemma SnapContinues(a: State, b: State, s: Snap)
    requires Continues(a, b) && Known(a.processes, s) && SameOrUnscraped(a, s)
    ensures Known(b.processes, s) && SameOrUnscraped(b, s)
  {
    hide NoOver, Unscraped, Monotone, DistinctTokens;
    var pid: nat :| Has(a.processes, pid, s.apiToken) && a.processes[pid].id == s.id;
    assert LivesOn(a.processes[pid], b.processes[pid]);
    assert Has(b.processes, pid, s.apiToken);
    if s.id in b.procs {
      var m := b.procs[s.id];
      if m.pid < |a.processes| {
        assert LivesOn(a.processes[m.pid], b.processes[m.pid]);
      } else {
        NewMeterIsGood(map[]);
      }
    }
  }

  lemma EntryContinues(a: State, b: State, phase: Phase, id: Int64)
    requires Continues(a, b) && GoodEntries(a, phase) && id in b.procs
    ensures InWriting(phase, b.procs[id]) || GoodLast(b.processes, b.procs[id].apiToken, b.procs[id].last)
  {
    hide NoOver, Unscraped, Monotone, Harmless;
    var m := b.procs[id];
    if m.pid < |a.processes| {
      if !InWriting(phase, m) {
        GoodLastContinues(a, b, m.pid, m.apiToken, m.last);
      }
    } else {
      NewMeterIsGood(m.last);
      forall pid: nat | Has(b.processes, pid, m.apiToken)
        ensures pid == m.pid
      {
      }
    }
  }

  lemma SnapsContinue(a: State, b: State, phase: Phase)
    requires Continues(a, b) && GoodSnaps(a, phase)
    ensures GoodSnaps(b, phase)
  {
    hide Continues, Known, SameOrUnscraped, GoodLast;
    assert Owned(a) && Owned(b) by { ContinuesOwned(a, b); }
    var snaps := Waiting(phase);
    forall i | 0 <= i < |snaps|
      ensures Known(b.processes, snaps[i]) && SameOrUnscraped(b, snaps[i])
      ensures GoodLast(b.processes, snaps[i].apiToken, snaps[i].last)
    {
      SnapContinues(a, b, snaps[i]);
      var owner := Owner(a.processes, snaps[i]);
      GoodLastContinues(a, b, owner, snaps[i].apiToken, snaps[i].last);
    }
    if phase.Writing? {
      SnapContinues(a, b, phase.snap);
      var owner := Owner(a.processes, phase.snap);
      GoodLastContinues(a, b, owner, phase.snap.apiToken, phase.newLast);
    }
  }

  lemma ContinuesOwned(a: State, b: State)
    requires Continues(a, b)
    ensures Owned(a) && Owned(b) && DistinctTokens(b.processes)
  {
  }

  lemma Owner(ps: seq<Process>, s: Snap) returns (pid: nat)
    requires Known(ps, s)
    ensures Has(ps, pid, s.apiToken) && ps[pid].id == s.id
  {
    pid :| Has(ps, pid, s.apiToken) && ps[pid].id == s.id;
  }

  lemma ContinuesKeepsInv(sys: System, b: State)
    requires Inv(sys) && Continues(sys.st, b)
    ensures Inv(sys.(st := b))
  {
    hide Continues, GoodMeter, GoodLast, DistinctTokens, Known, SameOrUnscraped;
    ContinuesOwned(sys.st, b);
    forall pid | 0 <= pid < |b.processes|
      ensures GoodMeter(b.processes, pid)
    {
      MeterContinues(sys.st, b, pid);
    }
    SnapsContinue(sys.st, b, sys.phase);
    forall id | id in b.procs
      ensures InWriting(sys.phase, b.procs[id]) || GoodLast(b.processes, b.procs[id].apiToken, b.procs[id].last)
    {
      EntryContinues(sys.st, b, sys.phase, id);
    }
  }

  lemma CallContinues(st: State, call: Call)
    requires Owned(st) && DistinctTokens(st.processes) && Possible(st, call) && FreshTokens(st.processes, call)
    ensures Continues(st, Do(st, call))
  {
    hide Do, Possible, NoOver, Unscraped, Monotone, CallTokens, OnceEach;
    CallEvolves(st, call);
    var b := Do(st, call);
    forall i, j | 0 <= i < j < |b.processes|
      ensures b.processes[i].token != b.processes[j].token
    {
      if i < |st.processes| {
        assert SameProcess(st.processes[i], b.processes[i]);
        if j < |st.processes| {
          assert SameProcess(st.processes[j], b.processes[j]);
        }
      }
    }
    forall i | 0 <= i < |st.processes|
      ensures LivesOn(st.processes[i], b.processes[i])
    {
      assert SameProcess(st.processes[i], b.processes[i]);
    }
  }

  lemma MeterChangeContinues(st: State, pid: nat, m: Meter)
    requires Owned(st) && DistinctTokens(st.processes) && pid < |st.processes|
    requires Harmless(st.processes[pid].meter, m)
    ensures Continues(st, WithMeter(st, pid, m))
  {
    hide NoOver, Unscraped, Monotone;
  }

  lemma CountIsHarmless(m: Meter, e: string, bytesIn: nat, bytesOut: nat)
    ensures Harmless(m, Counted(m, e, bytesIn, bytesOut))
  {
    hide NoOver, Monotone;
    var n := Counted(m, e, bytesIn, bytesOut);
    forall last | NoOver(m, last)
      ensures NoOver(n, last)
    {
      CountKeepsNoOver(m, e, bytesIn, bytesOut, last);
    }
    if Monotone(m) {
      CountKeepsMonotone(m, e, bytesIn, bytesOut);
    }
    forall x, dir
      ensures Unscraped(m) ==> InOut(n.shown, x, dir) <= InOut(n.counted, x, dir)
    {
      assert Unscraped(m) ==> InOut(m.shown, x, dir) <= InOut(m.counted, x, dir);
    }
  }

  lemma ResetIsHarmless(m: Meter, e: string)
    ensures Harmless(m, Reset(m, e))
  {
    hide NoOver, Monotone;
    var n := Reset(m, e);
    forall last | NoOver(m, last)
      ensures NoOver(n, last)
    {
      ResetKeepsNoOver(m, e, last);
    }
    if Monotone(m) {
      ResetKeepsMonotone(m, e);
    }
    forall x, dir
      ensures InOut(n.shown, x, dir) <= InOut(m.shown, x, dir)
    {
    }
  }
}
