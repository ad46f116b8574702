/**
 What ensureLocked and the retiring of processes (internal/mtproto/manager.go) do, case by case:
 which process is touched, how, and with how much work.
 */
module MtgCases {
  import opened Prelude
  import opened Text
  import opened MtgConfig
  import opened MtgManager

  /** Only process pid differs, if any. */
  ghost predicate SameButOne(before: seq<Process>, after: seq<Process>, pid: nat) {
    |before| <= |after| && forall i :: 0 <= i < |before| && i != pid ==> after[i] == before[i]
  }

  /** The managed process is live and was started for this configuration. */
  predicate LiveMatch(st: State, inst: Instance)
    requires Owned(st)
  {
    && inst.id in st.procs && st.processes[st.procs[inst.id].pid].running
    && st.procs[inst.id].structuralFP == StructuralFingerprint(inst)
  }

  predicate SecretsMatch(st: State, inst: Instance) {
    inst.id in st.procs && st.procs[inst.id].secretsFP == SecretsFingerprint(inst.secrets)
  }

  /** Live and with the same secrets: no process is touched and no work done, only the tag is taken over. */
  lemma NothingToDo(st: State, inst: Instance, o: Outcome)
    requires Owned(st) && LiveMatch(st, inst) && SecretsMatch(st, inst)
    ensures var (r, ok) := EnsureSpec(st, inst, o);
      && ok && r.processes == st.processes && r.work == st.work
      && r.procs == st.procs[inst.id := st.procs[inst.id].(tag := inst.tag)]
  {
    hide StructuralFingerprint, SecretsFingerprint;
  }

  /** Live with other secrets, and the update is taken: the same process goes on with the new ones, nothing restarts. */
  lemma SecretsInPlace(st: State, inst: Instance, o: Outcome)
    requires Owned(st) && LiveMatch(st, inst) && !SecretsMatch(st, inst) && o.rewritten && o.reply.Applied?
    ensures var (r, ok) := EnsureSpec(st, inst, o);
      var cur := st.procs[inst.id];
      && ok && |r.processes| == |st.processes| && SameButOne(st.processes, r.processes, cur.pid)
      && r.processes[cur.pid] == st.processes[cur.pid].(secrets := inst.secrets)
      && r.procs == st.procs[inst.id := cur.(tag := inst.tag, secretsFP := SecretsFingerprint(inst.secrets))]
      && r.work == st.work.(writes := st.work.writes + 1, pushes := st.work.pushes + 1)
  {
    hide StructuralFingerprint, SecretsFingerprint;
  }

  /** When its file cannot be written, everything stays as it is, and the call fails. */
  lemma FileNotWritten(st: State, inst: Instance, o: Outcome)
    requires Owned(st) && LiveMatch(st, inst) && !SecretsMatch(st, inst) && !o.rewritten
    ensures var (r, ok) := EnsureSpec(st, inst, o);
      && !ok && r.processes == st.processes && r.procs == st.procs
      && r.work == st.work.(writes := st.work.writes + 1)
  {
    hide StructuralFingerprint, SecretsFingerprint;
  }

  /** A fresh process on its own port and token, with the instance's configuration and secrets and no counters. */
  predicate FreshFor(p: Process, inst: Instance, o: Outcome) {
    && p.running && p.id == inst.id && p.started == inst && p.secrets == inst.secrets
    && o.port == Some(p.port) && o.token == Some(p.token) && p.meter == NewMeter
  }

  predicate EntryFor(m: Managed, pid: nat, inst: Instance, o: Outcome) {
    && m.pid == pid && m.tag == inst.tag && m.last == map[]
    && m.structuralFP == StructuralFingerprint(inst) && m.secretsFP == SecretsFingerprint(inst.secrets)
    && o.port == Some(m.apiPort) && o.token == Some(m.apiToken)
  }

  /** After n processes, one was started for inst and is managed now; the other entries are those of procs. */
  predicate StartedOne(r: State, procs: map<Int64, Managed>, n: nat, inst: Instance, o: Outcome) {
    && |r.processes| == n + 1 && FreshFor(r.processes[n], inst, o)
    && inst.id in r.procs && r.procs == procs[inst.id := r.procs[inst.id]] && EntryFor(r.procs[inst.id], n, inst, o)
  }

  /** Port, token, file and process all come about. */
  predicate StartWorks(o: Outcome) {
    o.port.Some? && o.token.Some? && o.written && o.started
  }

  /** The old process is left as it is, or stopped where that works. */
  predicate LeftOrStopped(p: Process, q: Process, ok: bool) {
    q == if ok then p.(running := false) else p
  }

  /** Nothing managed yet: one process is started, or none and nothing is managed. */
  lemma FirstStart(st: State, inst: Instance, o: Outcome)
    requires Owned(st) && inst.id !in st.procs
    ensures var (r, ok) := EnsureSpec(st, inst, o);
      && ok == StartWorks(o)
      && (ok ==> StartedOne(r, st.procs, |st.processes|, inst, o) && r.processes[..|st.processes|] == st.processes)
      && (ok ==> r.work == st.work.(writes := st.work.writes + 1, starts := st.work.starts + 1))
      && (!ok ==> r.processes == st.processes && r.procs == st.procs)
  {
    hide StructuralFingerprint, SecretsFingerprint;
  }

  lemma StoppedThenStarted(base: State, inst: Instance, o: Outcome)
    requires Owned(base) && inst.id in base.procs
    ensures Owned(StopSpec(base, inst.id, o.stopped))
    ensures var (r, ok) := StartSpec(StopSpec(base, inst.id, o.stopped), inst, o);
      var cur, n := base.procs[inst.id], |base.processes|;
      && ok == StartWorks(o) && SameButOne(base.processes, r.processes, cur.pid)
      && LeftOrStopped(base.processes[cur.pid], r.processes[cur.pid], o.stopped)
      && (ok ==> StartedOne(r, base.procs, n, inst, o))
      && (!ok ==> |r.processes| == n && r.procs == base.procs - {inst.id})
      && r.work.pushes == base.work.pushes && r.work.stops == base.work.stops + 1
  {
    hide StructuralFingerprint, SecretsFingerprint;
    StopKeepsOwned(base, inst.id, o.stopped);
  }

  /** A dead process or another configuration: the old process is stopped and forgotten, and a new one started. */
  lemma Replaced(st: State, inst: Instance, o: Outcome)
    requires Owned(st) && inst.id in st.procs && !LiveMatch(st, inst)
    ensures var (r, ok) := EnsureSpec(st, inst, o);
      var cur, n := st.procs[inst.id], |st.processes|;
      && ok == StartWorks(o) && SameButOne(st.processes, r.processes, cur.pid)
      && LeftOrStopped(st.processes[cur.pid], r.processes[cur.pid], o.stopped)
      && (ok ==> StartedOne(r, st.procs, n, inst, o))
      && (!ok ==> |r.processes| == n && r.procs == st.procs - {inst.id})
      && r.work.pushes == st.work.pushes && r.work.stops == st.work.stops + 1
  {
    hide StructuralFingerprint, SecretsFingerprint, StartSpec, StopSpec, FreshFor, EntryFor, SameButOne;
    StoppedThenStarted(st, inst, o);
  }

  /** A live process that does not confirm the new secrets is replaced as well, whether or not it took them. */
  lemma NotConfirmed(st: State, inst: Instance, o: Outcome)
    requires Owned(st) && LiveMatch(st, inst) && !SecretsMatch(st, inst) && o.rewritten && !o.reply.Applied?
    ensures var (r, ok) := EnsureSpec(st, inst, o);
      var cur, n := st.procs[inst.id], |st.processes|;
      var told := if o.reply.Lost? then st.processes[cur.pid].(secrets := inst.secrets) else st.processes[cur.pid];
      && ok == StartWorks(o) && SameButOne(st.processes, r.processes, cur.pid)
      && LeftOrStopped(told, r.processes[cur.pid], o.stopped)
      && (ok ==> StartedOne(r, st.procs, n, inst, o))
      && (!ok ==> |r.processes| == n && r.procs == st.procs - {inst.id})
      && r.work.pushes == st.work.pushes + 1 && r.work.stops == st.work.stops + 1
  {
    hide StructuralFingerprint, SecretsFingerprint, StartSpec, StopSpec, FreshFor, EntryFor;
    PushKeepsOwned(st, inst, o.reply);
    StoppedThenStarted(PushSpec(st, inst, o.reply), inst, o);
  }

  /** Removing an inbound stops its process, where that works, and touches no other. */
  lemma RemovedIsStopped(st: State, id: Int64, ok: bool)
    requires Owned(st) && id in st.procs
    ensures var r, pid := StopSpec(st, id, ok), st.procs[id].pid;
      && r.procs == st.procs - {id} && |r.processes| == |st.processes| && SameButOne(st.processes, r.processes, pid)
      && LeftOrStopped(st.processes[pid], r.processes[pid], ok)
  {
  }

  lemma GoneProcess(st: State, gone: set<Int64>, stopOk: set<Int64>, id: Int64)
    requires Owned(st) && id in st.procs && id in gone
    ensures var pid := st.procs[id].pid; LeftOrStopped(st.processes[pid], Halted(st, gone, stopOk)[pid], id in stopOk)
  {
    assert Retires(st, gone, stopOk, st.procs[id].pid) <==> id in stopOk;
  }

  lemma OtherProcess(st: State, gone: set<Int64>, stopOk: set<Int64>, pid: nat)
    requires pid < |st.processes| && forall id :: id in st.procs && id in gone ==> st.procs[id].pid != pid
    ensures Halted(st, gone, stopOk)[pid] == st.processes[pid]
  {
    assert !Retires(st, gone, stopOk, pid);
  }

  /** Some desired instance has this id. */
  predicate Wanted(desired: seq<Instance>, id: Int64) {
    exists i :: 0 <= i < |desired| && desired[i].id == id
  }

  /** Reconciling stops the process of every inbound that is no longer wanted, where that works, and no other. */
  lemma UnwantedAreStopped(st: State, desired: seq<Instance>, stopOk: set<Int64>)
    requires Owned(st)
    ensures var r := RetireSpec(st, st.procs.Keys - Ids(desired), stopOk);
      && |r.processes| == |st.processes|
      && (forall id :: id in r.procs <==> id in st.procs && Wanted(desired, id))
      && (forall id :: id in r.procs ==> r.procs[id] == st.procs[id])
      && (forall id :: id in st.procs && !Wanted(desired, id) ==>
            LeftOrStopped(st.processes[st.procs[id].pid], r.processes[st.procs[id].pid], id in stopOk))
      && (forall pid :: 0 <= pid < |st.processes| && !ServesUnwanted(st, desired, pid) ==>
            r.processes[pid] == st.processes[pid])
  {
    hide Halted, LeftOrStopped, Ids;
    var gone := st.procs.Keys - Ids(desired);
    WantedIsListed(desired);
    forall id | id in st.procs && !Wanted(desired, id)
      ensures var pid := st.procs[id].pid; LeftOrStopped(st.processes[pid], Halted(st, gone, stopOk)[pid], id in stopOk)
    {
      GoneProcess(st, gone, stopOk, id);
    }
    forall pid | 0 <= pid < |st.processes| && !ServesUnwanted(st, desired, pid)
      ensures Halted(st, gone, stopOk)[pid] == st.processes[pid]
    {
      OtherProcess(st, gone, stopOk, pid);
    }
  }

  /** pid is the process of an inbound that is not wanted. */
  predicate ServesUnwanted(st: State, desired: seq<Instance>, pid: nat) {
    exists id :: id in st.procs && !Wanted(desired, id) && st.procs[id].pid == pid
  }

  lemma WantedIsListed(desired: seq<Instance>)
    ensures forall id :: id in Ids(desired) <==> Wanted(desired, id)
  {
  }
}
