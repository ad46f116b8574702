/**
 What the mtg manager guarantees over any run: an entry never claims more than its live process
 was given, reconciling converges, and a second pass over agreeing instances does nothing.
 */
module MtgReconcile {
  import opened Prelude
  import opened Text
  import opened MtgConfig
  import opened MtgManager

  // ---- the manager never lies ------------------------------------------------------

  /** The entry's fingerprints are those of what its process was started on and last took. */
  predicate Honest(m: Managed, p: Process) {
    m.structuralFP == StructuralFingerprint(p.started) && m.secretsFP == SecretsFingerprint(p.secrets)
  }

  predicate Truthful(st: State) {
    Owned(st) && forall id :: id in st.procs ==> Honest(st.procs[id], st.processes[st.procs[id].pid])
  }

  lemma StartKeepsTruth(st: State, inst: Instance, o: Outcome)
    requires Truthful(st)
    ensures Truthful(StartSpec(st, inst, o).0)
  {
    hide StructuralFingerprint, SecretsFingerprint;
    StartKeepsOwned(st, inst, o);
    forall id | id in StartSpec(st, inst, o).0.procs
      ensures var r := StartSpec(st, inst, o).0; Honest(r.procs[id], r.processes[r.procs[id].pid])
    {
    }
  }

  lemma StopKeepsTruth(st: State, id: Int64, ok: bool)
    requires Truthful(st) && id in st.procs
    ensures Truthful(StopSpec(st, id, ok))
  {
    hide StructuralFingerprint, SecretsFingerprint;
    StopKeepsOwned(st, id, ok);
  }

  /** Taking a secret update keeps the truth once the entry records it. */
  lemma AppliedKeepsTruth(st: State, inst: Instance)
    requires Truthful(st) && inst.id in st.procs
    ensures var r := PushSpec(st, inst, Applied);
      Truthful(r.(procs := st.procs[inst.id := st.procs[inst.id].(tag := inst.tag,
        secretsFP := SecretsFingerprint(inst.secrets))]))
  {
    hide StructuralFingerprint, SecretsFingerprint;
    PushKeepsOwned(st, inst, Applied);
  }

  /** A process that took an update without saying so leaves its entry wrong, until the entry is dropped. */
  lemma LostThenStoppedKeepsTruth(st: State, inst: Instance, reply: Reply, ok: bool)
    requires Truthful(st) && inst.id in st.procs
    ensures Owned(PushSpec(st, inst, reply)) && inst.id in PushSpec(st, inst, reply).procs
    ensures Truthful(StopSpec(PushSpec(st, inst, reply), inst.id, ok))
  {
    hide StructuralFingerprint, SecretsFingerprint;
    PushKeepsOwned(st, inst, reply);
    var r := PushSpec(st, inst, reply);
    StopKeepsOwned(r, inst.id, ok);
    forall id | id in r.procs && id != inst.id
      ensures r.procs[id].pid != r.procs[inst.id].pid
    {
    }
  }

  lemma TagKeepsTruth(st: State, id: Int64, tag: string)
    requires Truthful(st) && id in st.procs
    ensures Truthful(st.(procs := st.procs[id := st.procs[id].(tag := tag)]))
  {
    hide StructuralFingerprint, SecretsFingerprint;
  }

  lemma TruthIgnoresWork(st: State)
    requires Truthful(st)
    ensures Truthful(st.(work := Wrote(st.work)))
  {
    hide Honest;
  }

  /** Whatever fails on the way, ensuring an instance leaves every entry truthful. */
  lemma EnsureKeepsTruth(st: State, inst: Instance, o: Outcome)
    requires Truthful(st)
    ensures Truthful(EnsureSpec(st, inst, o).0)
  {
    hide StructuralFingerprint, SecretsFingerprint, Truthful, StartSpec, StopSpec, ActionOn, Honest, PushSpec;
    assert Owned(st) by { TruthfulIsOwned(st); }
    StartKeepsTruth(st, inst, o);
    if inst.id in st.procs {
      TagKeepsTruth(st, inst.id, inst.tag);
      AppliedKeepsTruth(st, inst);
      LostThenStoppedKeepsTruth(st, inst, o.reply, o.stopped);
      StartKeepsTruth(StopSpec(PushSpec(st, inst, o.reply), inst.id, o.stopped), inst, o);
      StopKeepsTruth(st, inst.id, o.stopped);
      StartKeepsTruth(StopSpec(st, inst.id, o.stopped), inst, o);
      TruthIgnoresWork(st);
    }
  }

  lemma TruthfulIsOwned(st: State)
    requires Truthful(st)
    ensures Owned(st)
  {
  }

  lemma RetireKeepsTruth(st: State, gone: set<Int64>, stopOk: set<Int64>)
    requires Truthful(st)
    ensures Truthful(RetireSpec(st, gone, stopOk))
  {
    hide StructuralFingerprint, SecretsFingerprint, Halted, Retires;
    RetireKeepsOwned(st, gone, stopOk);
  }

  lemma {:induction false} EnsureAllKeepsTruth(st: State, desired: seq<Instance>, os: seq<Outcome>)
    requires Truthful(st) && |os| == |desired|
    ensures Truthful(EnsureAllSpec(st, desired, os))
    decreases |desired|
  {
    hide Truthful, Owned, EnsureSpec;
    assert Owned(st) by { TruthfulIsOwned(st); }
    if desired != [] {
      var n := |desired| - 1;
      EnsureAllKeepsTruth(st, desired[..n], os[..n]);
      EnsureKeepsTruth(EnsureAllSpec(st, desired[..n], os[..n]), desired[n], os[n]);
    }
  }

  // Runs of the manager and of the processes themselves.

  datatype Call =
    | Ensure(inst: Instance, o: Outcome)
    | Remove(id: Int64, stopped: bool)
    | Reconcile(desired: seq<Instance>, os: seq<Outcome>, stopOk: set<Int64>)
    | StopAll(all: set<Int64>)
    | Crash(pid: nat)

  predicate Possible(st: State, call: Call) {
    match call
    case Reconcile(desired, os, _) => |os| == |desired|
    case Crash(pid) => pid < |st.processes|
    case _ => true
  }

  function Do(st: State, call: Call): State
    requires Owned(st) && Possible(st, call)
  {
    match call
    case Ensure(inst, o) => EnsureSpec(st, inst, o).0
    case Remove(id, stopped) => RetireSpec(st, {id}, if stopped then {id} else {})
    case Reconcile(desired, os, stopOk) => ReconcileSpec(st, desired, os, stopOk)
    case StopAll(stopOk) => RetireSpec(st, st.procs.Keys, stopOk)
    case Crash(pid) => st.(processes := Stopped(st.processes, pid, true))
  }

  const Fresh := State(map[], [], Work(0, 0, 0, 0))

  ghost predicate Next(a: State, b: State) {
    Owned(a) && exists call :: Possible(a, call) && b == Do(a, call)
  }

  ghost predicate Reachable(trace: seq<State>) {
    && trace != [] && trace[0] == Fresh
    && forall i :: 0 <= i < |trace| - 1 ==> Next(trace[i], trace[i + 1])
  }

  lemma CrashKeepsTruth(st: State, pid: nat)
    requires Truthful(st) && pid < |st.processes|
    ensures Truthful(st.(processes := Stopped(st.processes, pid, true)))
  {
    hide StructuralFingerprint, SecretsFingerprint;
  }

  lemma CallKeepsTruth(st: State, call: Call)
    requires Truthful(st) && Possible(st, call)
    ensures Truthful(Do(st, call))
  {
    hide EnsureSpec, EnsureAllSpec, RetireSpec, Stopped, Honest;
    match call
    case Ensure(inst, o) => EnsureKeepsTruth(st, inst, o);
    case Remove(id, stopped) => RetireKeepsTruth(st, {id}, if stopped then {id} else {});
    case Reconcile(desired, os, stopOk) =>
      RetireKeepsTruth(st, st.procs.Keys - Ids(desired), stopOk);
      EnsureAllKeepsTruth(RetireSpec(st, st.procs.Keys - Ids(desired), stopOk), desired, os);
    case StopAll(stopOk) => RetireKeepsTruth(st, st.procs.Keys, stopOk);
    case Crash(pid) => CrashKeepsTruth(st, pid);
  }

  /** In every reachable state every entry tells the truth about its process. */
  lemma {:induction false} NeverLies(trace: seq<State>)
    requires Reachable(trace)
    ensures Truthful(trace[|trace| - 1])
  {
    hide Do, Possible, Honest;
    if |trace| > 1 {
      var n := |trace| - 1;
      var front, a, b := trace[..n], trace[n - 1], trace[n];
      forall i | 0 <= i < n - 1
        ensures Next(front[i], front[i + 1])
      {
        assert front[i] == trace[i] && front[i + 1] == trace[i + 1];
      }
      NeverLies(front);
      assert Next(a, b);
      var call :| Possible(a, call) && b == Do(a, call);
      CallKeepsTruth(a, call);
    }
  }

  /** What that means for the process behind an entry that matches inst. */
  lemma MatchingEntryRunsInstance(st: State, inst: Instance)
    requires Truthful(st) && inst.id in st.procs
    requires st.procs[inst.id].structuralFP == StructuralFingerprint(inst)
    requires st.procs[inst.id].secretsFP == SecretsFingerprint(inst.secrets)
    requires var p := st.processes[st.procs[inst.id].pid];
      PlainInstance(inst) && AllPlain(inst.secrets) && AllPlain(p.secrets)
    ensures var p := st.processes[st.procs[inst.id].pid];
      && HeadText(p.started, p.port, p.token) == HeadText(inst, p.port, p.token)
      && multiset(p.secrets) == multiset(inst.secrets)
  {
    hide PlainInstance, AllPlain, HeadText, StructuralFingerprint, SecretsFingerprint;
    var p := st.processes[st.procs[inst.id].pid];
    StructuralFingerprintDecides(inst, p.started, p.port, p.token);
    SecretsFingerprintDecides(p.secrets, inst.secrets);
  }

  // ---- convergence ---------------------------------------------------------------------

  /** Everything a fresh start needs works; secret updates and stops may still fail. */
  predicate Working(o: Outcome) {
    o.rewritten && o.port.Some? && o.token.Some? && o.written && o.started
  }

  /** The manager runs inst. */
  predicate Runs(st: State, inst: Instance)
    requires Owned(st)
  {
    && inst.id in st.procs
    && st.processes[st.procs[inst.id].pid].running
    && st.procs[inst.id].tag == inst.tag
    && st.procs[inst.id].structuralFP == StructuralFingerprint(inst)
    && st.procs[inst.id].secretsFP == SecretsFingerprint(inst.secrets)
  }

  /** Entries of other ids, and the processes behind them, are left alone. */
  predicate SameFor(before: State, after: State, id: Int64)
    requires Owned(before) && Owned(after)
  {
    && (id in before.procs <==> id in after.procs)
    && (id in before.procs ==>
          after.procs[id] == before.procs[id]
          && after.processes[after.procs[id].pid] == before.processes[before.procs[id].pid])
  }

  lemma StartKeepsOthers(st: State, inst: Instance, o: Outcome)
    requires Owned(st)
    ensures Owned(StartSpec(st, inst, o).0)
    ensures forall id :: id != inst.id ==> SameFor(st, StartSpec(st, inst, o).0, id)
  {
    hide NewEntry, NewProcess;
    StartKeepsOwned(st, inst, o);
  }

  lemma StartRuns(st: State, inst: Instance, o: Outcome)
    requires Owned(st) && inst.id !in st.procs
    ensures var r := StartSpec(st, inst, o);
      && Owned(r.0)
      && (Working(o) ==> r.1)
      && (if r.1 then Runs(r.0, inst) && r.0.procs.Keys == st.procs.Keys + {inst.id} else r.0.procs == st.procs)
      && forall id :: id != inst.id ==> SameFor(st, r.0, id)
  {
    hide StructuralFingerprint, SecretsFingerprint, SameFor;
    StartKeepsOthers(st, inst, o);
  }

  lemma StopForgets(st: State, id: Int64, ok: bool)
    requires Owned(st) && id in st.procs
    ensures var r := StopSpec(st, id, ok);
      && Owned(r) && r.procs.Keys == st.procs.Keys - {id}
      && forall k :: k != id ==> SameFor(st, r, k)
  {
    StopKeepsOwned(st, id, ok);
  }

  lemma PushSameOthers(st: State, inst: Instance, reply: Reply)
    requires Owned(st) && inst.id in st.procs
    ensures var r := PushSpec(st, inst, reply);
      && Owned(r) && r.procs == st.procs
      && forall k :: k != inst.id ==> SameFor(st, r, k)
  {
    PushKeepsOwned(st, inst, reply);
  }

  /** Ensuring succeeds exactly when it ends with inst running; failing, it leaves the old entry or none. */
  lemma EnsureOutcome(st: State, inst: Instance, o: Outcome)
    requires Owned(st)
    ensures var r := EnsureSpec(st, inst, o);
      && Owned(r.0)
      && (Working(o) ==> r.1)
      && (r.1 ==> Runs(r.0, inst) && r.0.procs.Keys == st.procs.Keys + {inst.id})
      && (!r.1 ==> inst.id !in r.0.procs || SameFor(st, r.0, inst.id))
      && (!r.1 ==> r.0.procs.Keys <= st.procs.Keys)
      && forall id :: id != inst.id ==> SameFor(st, r.0, id)
  {
    hide StructuralFingerprint, SecretsFingerprint, StartSpec, StopSpec, Pushed;
    EnsureKeepsOwned(st, inst, o);
    if inst.id !in st.procs {
      StartRuns(st, inst, o);
    } else {
      match ActionOn(st, inst)
      case Noop =>
      case Restart => RestartOutcome(st, st, inst, o);
      case Reload =>
        if o.rewritten {
          PushSameOthers(st, inst, o.reply);
          if o.reply.Applied? {
            AppliedOutcome(st, inst);
          } else {
            RestartOutcome(st, PushSpec(st, inst, o.reply), inst, o);
          }
        }
    }
  }

  lemma SameForTwice(a: State, b: State, c: State, id: Int64)
    requires Owned(a) && Owned(b) && Owned(c) && SameFor(a, b, id) && SameFor(b, c, id)
    ensures SameFor(a, c, id)
  {
  }

  lemma RestartOutcome(st: State, mid: State, inst: Instance, o: Outcome)
    requires Owned(st) && Owned(mid) && inst.id in st.procs && mid.procs == st.procs
    requires forall k :: k != inst.id ==> SameFor(st, mid, k)
    ensures var r := StartSpec(StopSpec(mid, inst.id, o.stopped), inst, o);
      && Owned(r.0)
      && (Working(o) ==> r.1)
      && (if r.1 then Runs(r.0, inst) && r.0.procs.Keys == st.procs.Keys + {inst.id}
          else inst.id !in r.0.procs && r.0.procs.Keys <= st.procs.Keys)
      && forall id :: id != inst.id ==> SameFor(st, r.0, id)
  {
    hide StartSpec, StopSpec, Runs, Owned, SameFor;
    StopForgets(mid, inst.id, o.stopped);
    var stopped := StopSpec(mid, inst.id, o.stopped);
    StartRuns(stopped, inst, o);
    assert stopped.procs.Keys + {inst.id} == st.procs.Keys + {inst.id};
    var after := StartSpec(stopped, inst, o).0;
    forall id | id != inst.id
      ensures SameFor(st, after, id)
    {
      assert SameFor(mid, stopped, id) && SameFor(stopped, after, id);
      SameForTwice(st, mid, stopped, id);
      SameForTwice(st, stopped, after, id);
    }
  }

  lemma AppliedOutcome(st: State, inst: Instance)
    requires Owned(st) && inst.id in st.procs && ActionOn(st, inst).Reload?
    ensures var pushed := PushSpec(st, inst, Applied);
      var cur := st.procs[inst.id];
      var r := pushed.(procs := st.procs[inst.id := cur.(tag := inst.tag,
        secretsFP := SecretsFingerprint(inst.secrets))]);
      Owned(r) && Runs(r, inst) && forall id :: id != inst.id ==> SameFor(st, r, id)
  {
    hide StructuralFingerprint, SecretsFingerprint;
    PushKeepsOwned(st, inst, Applied);
  }

  /** desired[i] is the last instance of its id. */
  predicate LastOfId(desired: seq<Instance>, i: nat) {
    i < |desired| && forall j :: i < j < |desired| ==> desired[j].id != desired[i].id
  }

  /** One pass in which writes, ports, tokens and starts work runs the last instance of every id. */
  lemma {:induction false} EnsureAllConverges(st: State, desired: seq<Instance>, os: seq<Outcome>)
    requires Owned(st) && |os| == |desired|
    requires forall i :: 0 <= i < |os| ==> Working(os[i])
    ensures var r := EnsureAllSpec(st, desired, os);
      && r.procs.Keys == st.procs.Keys + Ids(desired)
      && forall i: nat :: LastOfId(desired, i) ==> Runs(r, desired[i])
    decreases |desired|
  {
    hide Runs, EnsureSpec, Owned, Working, Ids;
    if desired == [] {
      NoIds();
    } else {
      var n := |desired| - 1;
      var before := EnsureAllSpec(st, desired[..n], os[..n]);
      EnsureAllConverges(st, desired[..n], os[..n]);
      EnsureOutcome(before, desired[n], os[n]);
      IdsExtend(desired, n);
      assert desired[..n+1] == desired;
      forall i: nat | LastOfId(desired, i)
        ensures Runs(EnsureAllSpec(st, desired, os), desired[i])
      {
        if i < n {
          LastInFront(desired, n, i);
          SameStillRuns(before, EnsureAllSpec(st, desired, os), desired[i]);
        }
      }
    }
  }

  lemma LastInFront(desired: seq<Instance>, n: nat, i: nat)
    requires LastOfId(desired, i) && i < n == |desired| - 1
    ensures LastOfId(desired[..n], i) && desired[..n][i] == desired[i] && desired[i].id != desired[n].id
  {
    var front := desired[..n];
    forall j | i < j < n
      ensures front[j].id != front[i].id
    {
      assert front[j] == desired[j];
    }
  }

  lemma NoIds()
    ensures Ids([]) == {}
  {
  }

  lemma SameStillRuns(before: State, after: State, inst: Instance)
    requires Owned(before) && Owned(after) && SameFor(before, after, inst.id) && Runs(before, inst)
    ensures Runs(after, inst)
  {
  }

  /** Reconcile ends with exactly the desired ids, each running the last instance given for it. */
  lemma ReconcileConverges(st: State, desired: seq<Instance>, os: seq<Outcome>, stopOk: set<Int64>)
    requires Owned(st) && |os| == |desired|
    requires forall i :: 0 <= i < |os| ==> Working(os[i])
    ensures var r := ReconcileSpec(st, desired, os, stopOk);
      && Owned(r) && r.procs.Keys == Ids(desired)
      && forall i: nat :: LastOfId(desired, i) ==> Runs(r, desired[i])
  {
    hide Runs, EnsureAllSpec, Owned, Working;
    var gone := st.procs.Keys - Ids(desired);
    RetireKeepsOwned(st, gone, stopOk);
    RetireKeys(st, gone, stopOk);
    EnsureAllConverges(RetireSpec(st, gone, stopOk), desired, os);
  }

  // ---- a second pass -----------------------------------------------------------------------

  predicate SameConfig(a: Instance, b: Instance) {
    StructuralFingerprint(a) == StructuralFingerprint(b)
      && SecretsFingerprint(a.secrets) == SecretsFingerprint(b.secrets)
  }

  predicate SameIdAgree(desired: seq<Instance>) {
    forall i, j :: 0 <= i < j < |desired| && desired[i].id == desired[j].id ==> SameConfig(desired[i], desired[j])
  }

  /** Every desired id has a live entry with that instance's fingerprints. */
  predicate Settled(st: State, desired: seq<Instance>)
    requires Owned(st)
  {
    forall i :: 0 <= i < |desired| ==> Matches(st, desired[i])
  }

  predicate Matches(st: State, inst: Instance)
    requires Owned(st)
  {
    && inst.id in st.procs
    && st.processes[st.procs[inst.id].pid].running
    && st.procs[inst.id].structuralFP == StructuralFingerprint(inst)
    && st.procs[inst.id].secretsFP == SecretsFingerprint(inst.secrets)
  }

  /** States that differ in tags only. */
  predicate SameButTags(a: State, b: State) {
    && a.processes == b.processes && a.work == b.work && a.procs.Keys == b.procs.Keys
    && forall id :: id in a.procs ==> a.procs[id].(tag := "") == b.procs[id].(tag := "")
  }

  lemma MatchIsQuiet(st: State, inst: Instance, o: Outcome)
    requires Owned(st) && Matches(st, inst)
    ensures EnsureSpec(st, inst, o).0 == st.(procs := st.procs[inst.id := st.procs[inst.id].(tag := inst.tag)])
  {
    hide StructuralFingerprint, SecretsFingerprint;
  }

  /** With an entry in place, ensuring an instance is free of work exactly when the entry matches. */
  lemma QuietMeansMatch(st: State, inst: Instance, o: Outcome)
    requires Owned(st) && inst.id in st.procs
    ensures EnsureSpec(st, inst, o).0.work == st.work <==> Matches(st, inst)
    ensures WorkLe(st.work, EnsureSpec(st, inst, o).0.work)
  {
    hide StructuralFingerprint, SecretsFingerprint;
  }

  predicate WorkLe(a: Work, b: Work) {
    a.starts <= b.starts && a.stops <= b.stops && a.pushes <= b.pushes && a.writes <= b.writes
  }

  lemma WorkGrows(st: State, inst: Instance, o: Outcome)
    requires Owned(st)
    ensures WorkLe(st.work, EnsureSpec(st, inst, o).0.work)
  {
    hide StructuralFingerprint, SecretsFingerprint, Owned, Pushed, Stopped;
    if inst.id in st.procs {
      QuietMeansMatch(st, inst, o);
    }
  }

  lemma {:induction false} AllWorkGrows(st: State, desired: seq<Instance>, os: seq<Outcome>)
    requires Owned(st) && |os| == |desired|
    ensures WorkLe(st.work, EnsureAllSpec(st, desired, os).work)
    decreases |desired|
  {
    hide EnsureSpec, Owned;
    if desired != [] {
      var n := |desired| - 1;
      AllWorkGrows(st, desired[..n], os[..n]);
      WorkGrows(EnsureAllSpec(st, desired[..n], os[..n]), desired[n], os[n]);
    }
  }

  lemma TagsDoNotMatter(a: State, b: State, inst: Instance)
    requires Owned(a) && Owned(b) && SameButTags(a, b)
    ensures Matches(a, inst) <==> Matches(b, inst)
  {
    hide StructuralFingerprint, SecretsFingerprint;
    if inst.id in a.procs {
      assert a.procs[inst.id].(tag := "") == b.procs[inst.id].(tag := "");
    }
  }

  lemma SettledFront(st: State, desired: seq<Instance>, n: nat)
    requires Owned(st) && |desired| == n + 1
    ensures Settled(st, desired) <==> Settled(st, desired[..n]) && Matches(st, desired[n])
  {
    hide Owned, Matches;
    var front := desired[..n];
    assert forall i :: 0 <= i < n ==> front[i] == desired[i];
  }

  lemma QuietNext(st: State, before: State, inst: Instance, o: Outcome)
    requires Owned(st) && Owned(before) && SameButTags(st, before) && inst.id in before.procs
    ensures EnsureSpec(before, inst, o).0.work == st.work <==> Matches(st, inst)
    ensures Matches(st, inst) ==> SameButTags(st, EnsureSpec(before, inst, o).0)
  {
    hide EnsureSpec, Owned, Matches;
    TagsDoNotMatter(st, before, inst);
    QuietMeansMatch(before, inst, o);
    if Matches(before, inst) {
      MatchIsQuiet(before, inst, o);
    }
  }

  /** With all entries in place, a pass is free of work exactly when every instance matches its entry. */
  lemma {:induction false} QuietPass(st: State, desired: seq<Instance>, os: seq<Outcome>)
    requires Owned(st) && |os| == |desired| && Ids(desired) <= st.procs.Keys
    ensures EnsureAllSpec(st, desired, os).work == st.work <==> Settled(st, desired)
    ensures Settled(st, desired) ==> SameButTags(st, EnsureAllSpec(st, desired, os))
    decreases |desired|
  {
    hide EnsureSpec, Owned, Matches, Settled;
    if desired != [] {
      var n := |desired| - 1;
      var front, before := desired[..n], EnsureAllSpec(st, desired[..n], os[..n]);
      IdsExtend(desired, n);
      assert desired[..n+1] == desired && desired[n].id in Ids(desired);
      QuietPass(st, front, os[..n]);
      AllWorkGrows(st, front, os[..n]);
      WorkGrows(before, desired[n], os[n]);
      SettledFront(st, desired, n);
      if before.work == st.work {
        QuietNext(st, before, desired[n], os[n]);
      }
    } else {
      NothingSettled(st, desired);
    }
  }

  lemma NothingSettled(st: State, desired: seq<Instance>)
    requires Owned(st) && desired == []
    ensures Settled(st, desired)
  {
  }

  /** After a pass that converged, the next one is free of work exactly when same-id instances agree. */
  lemma SecondReconcileIsQuiet(st: State, desired: seq<Instance>, os: seq<Outcome>, stopOk: set<Int64>,
                               os2: seq<Outcome>, stopOk2: set<Int64>)
    requires Owned(st) && |os| == |os2| == |desired|
    requires forall i :: 0 <= i < |os| ==> Working(os[i])
    ensures var first := ReconcileSpec(st, desired, os, stopOk);
      Owned(first)
      && var second := ReconcileSpec(first, desired, os2, stopOk2);
      && (second.work == first.work <==> SameIdAgree(desired))
      && (SameIdAgree(desired) ==> SameButTags(first, second))
  {
    hide EnsureAllSpec, Owned, Working, Settled, SameIdAgree, Halted;
    ReconcileConverges(st, desired, os, stopOk);
    var first := ReconcileSpec(st, desired, os, stopOk);
    var gone := first.procs.Keys - Ids(desired);
    assert gone == {};
    RetireNone(first, stopOk2);
    QuietPass(first, desired, os2);
    SettledMeansAgree(first, desired);
  }

  lemma SettledMeansAgree(st: State, desired: seq<Instance>)
    requires Owned(st) && forall i: nat :: LastOfId(desired, i) ==> Runs(st, desired[i])
    ensures Settled(st, desired) <==> SameIdAgree(desired)
  {
    hide StructuralFingerprint, SecretsFingerprint, Owned;
    if SameIdAgree(desired) {
      forall i | 0 <= i < |desired|
        ensures Matches(st, desired[i])
      {
        var k := LastIndex(desired, i);
        assert LastOfId(desired, k);
      }
    }
    if Settled(st, desired) {
      forall i, j | 0 <= i < j < |desired| && desired[i].id == desired[j].id
        ensures SameConfig(desired[i], desired[j])
      {
        assert Matches(st, desired[i]) && Matches(st, desired[j]);
      }
    }
  }

  /** Where the id of desired[i] occurs last. */
  lemma {:induction false} LastIndex(desired: seq<Instance>, i: nat) returns (k: nat)
    requires i < |desired|
    ensures i <= k && LastOfId(desired, k) && desired[k].id == desired[i].id
    decreases |desired| - i
  {
    if LastOfId(desired, i) {
      k := i;
    } else {
      var j :| i < j < |desired| && desired[j].id == desired[i].id;
      k := LastIndex(desired, j);
    }
  }
}
