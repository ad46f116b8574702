/**
 The mtg sidecar manager (internal/mtproto/manager.go): which processes it keeps, and what it
 believes about them.  Every outside action may fail; its outcome is a parameter.
 */
module MtgManager {
  import opened Prelude
  import opened Text
  import opened MtgConfig

  datatype Counters = Counters(up: nat, down: nat)

  /** What mtg counts for a client: the bytes that came in from it, and those that went out to it. */
  datatype Bytes = Bytes(bytesIn: nat, bytesOut: nat)

  /**
   Byte counters of one process per client: shown by /stats, really counted, and reported by the
   collector so far; the successful scrapes, and the clients whose shown counter ever restarted.
   */
  datatype Meter = Meter(
    shown: map<string, Bytes>, counted: map<string, Bytes>, reported: map<string, Counters>,
    scrapes: seq<map<string, Counters>>, resets: set<string>)

  const NewMeter := Meter(map[], map[], map[], [], {})

  /** A process the manager once started; its index in the history is its identity. */
  datatype Process = Process(
    id: Int64, started: Instance, port: int, token: string, secrets: seq<SecretEntry>, running: bool, meter: Meter)

  datatype Managed = Managed(
    pid: nat, tag: string, structuralFP: string, secretsFP: string, apiPort: int, apiToken: string,
    last: map<string, Counters>)

  /** How often processes were started, stopped, sent secrets, and config files written. */
  datatype Work = Work(starts: nat, stops: nat, pushes: nat, writes: nat)

  datatype State = State(procs: map<Int64, Managed>, processes: seq<Process>, work: Work)

  /** A secret update can be taken, taken without a 200 coming back, or refused. */
  datatype Reply = Applied | Lost | Refused

  datatype Outcome = Outcome(
    rewritten: bool, reply: Reply, stopped: bool, port: Option<int>, token: Option<string>,
    written: bool, started: bool)

  datatype Action = Noop | Reload | Restart

  function EnsureActionFor(running: bool, curStructFP: string, curSecretsFP: string,
                           newStructFP: string, newSecretsFP: string): Action {
    if !running || curStructFP != newStructFP then Restart
    else if curSecretsFP != newSecretsFP then Reload
    else Noop
  }

  // ---- the outside world ------------------------------------------------------------

  class Host {
    var processes: seq<Process>
    var work: Work

    method IsRunning(pid: nat) returns (running: bool)
      requires pid < |processes|
      ensures running == processes[pid].running
    {
      return processes[pid].running;
    }

    method WriteConfig(ok: bool) returns (done: bool)
      modifies this`work
      ensures done == ok && work == Wrote(old(work))
    {
      work := Wrote(work);
      return ok;
    }

    method Push(pid: nat, secrets: seq<SecretEntry>, reply: Reply) returns (ok: bool)
      requires pid < |processes|
      modifies this
      ensures ok == reply.Applied?
      ensures processes == Pushed(old(processes), pid, secrets, reply)
        && work == old(work).(pushes := old(work).pushes + 1)
    {
      processes, work := Pushed(processes, pid, secrets, reply), work.(pushes := work.pushes + 1);
      return reply.Applied?;
    }

    method Stop(pid: nat, ok: bool)
      requires pid < |processes|
      modifies this
      ensures processes == Stopped(old(processes), pid, ok) && work == old(work).(stops := old(work).stops + 1)
    {
      processes, work := Stopped(processes, pid, ok), work.(stops := work.stops + 1);
    }

    method Start(inst: Instance, port: int, token: string, ok: bool) returns (pid: Option<nat>)
      modifies this
      ensures work == old(work).(starts := old(work).starts + 1)
      ensures processes == if ok then old(processes) + [NewProcess(inst, port, token)] else old(processes)
      ensures pid == if ok then Some(|old(processes)|) else None
    {
      work := work.(starts := work.starts + 1);
      if !ok {
        return None;
      }
      processes := processes + [NewProcess(inst, port, token)];
      return Some(|processes| - 1);
    }
  }

  function Wrote(w: Work): Work { w.(writes := w.writes + 1) }

  function NewProcess(inst: Instance, port: int, token: string): Process {
    Process(inst.id, inst, port, token, inst.secrets, true, NewMeter)
  }

  function Stopped(ps: seq<Process>, pid: nat, ok: bool): seq<Process>
    requires pid < |ps|
  {
    if ok then ps[pid := ps[pid].(running := false)] else ps
  }

  function Pushed(ps: seq<Process>, pid: nat, secrets: seq<SecretEntry>, reply: Reply): seq<Process>
    requires pid < |ps|
  {
    if reply.Refused? then ps else ps[pid := ps[pid].(secrets := secrets)]
  }

  // ---- what the manager's operations do ------------------------------------------------

  /** Every entry refers to the process that was started for it, on the entry's port and token. */
  predicate Owned(st: State) {
    forall id :: id in st.procs ==>
      var m := st.procs[id];
      m.pid < |st.processes| && st.processes[m.pid].id == id
      && st.processes[m.pid].port == m.apiPort && st.processes[m.pid].token == m.apiToken
  }

  function NewEntry(pid: nat, inst: Instance, port: int, token: string): Managed {
    Managed(pid, inst.tag, StructuralFingerprint(inst), SecretsFingerprint(inst.secrets), port, token, map[])
  }

  /** The tail of ensureLocked: allocate, write, start; any step may fail. */
  function StartSpec(st: State, inst: Instance, o: Outcome): (State, bool) {
    if o.port.None? || o.token.None? then (st, false)
    else if !o.written then (st.(work := Wrote(st.work)), false)
    else
      var w := Wrote(st.work).(starts := st.work.starts + 1);
      if !o.started then (st.(work := w), false)
      else
        (State(st.procs[inst.id := NewEntry(|st.processes|, inst, o.port.value, o.token.value)],
               st.processes + [NewProcess(inst, o.port.value, o.token.value)], w), true)
  }

  function StopSpec(st: State, id: Int64, ok: bool): State
    requires Owned(st) && id in st.procs
  {
    State(st.procs - {id}, Stopped(st.processes, st.procs[id].pid, ok), st.work.(stops := st.work.stops + 1))
  }

  function ActionOn(st: State, inst: Instance): Action
    requires Owned(st) && inst.id in st.procs
  {
    var cur := st.procs[inst.id];
    EnsureActionFor(st.processes[cur.pid].running, cur.structuralFP, cur.secretsFP,
                    StructuralFingerprint(inst), SecretsFingerprint(inst.secrets))
  }

  /** The state after a secret update was sent, whatever the reply. */
  function PushSpec(st: State, inst: Instance, reply: Reply): State
    requires Owned(st) && inst.id in st.procs
  {
    State(st.procs, Pushed(st.processes, st.procs[inst.id].pid, inst.secrets, reply),
          Wrote(st.work).(pushes := st.work.pushes + 1))
  }

  function EnsureSpec(st: State, inst: Instance, o: Outcome): (State, bool)
    requires Owned(st)
  {
    if inst.id !in st.procs then StartSpec(st, inst, o)
    else
      var cur := st.procs[inst.id];
      match ActionOn(st, inst)
      case Noop => (st.(procs := st.procs[inst.id := cur.(tag := inst.tag)]), true)
      case Reload =>
        if !o.rewritten then (st.(work := Wrote(st.work)), false)
        else
          var pushed := PushSpec(st, inst, o.reply);
          if o.reply.Applied? then
            (pushed.(procs := st.procs[inst.id := cur.(tag := inst.tag,
              secretsFP := SecretsFingerprint(inst.secrets))]), true)
          else StartSpec(StopSpec(pushed, inst.id, o.stopped), inst, o)
      case Restart => StartSpec(StopSpec(st, inst.id, o.stopped), inst, o)
  }

  /** The entries in gone are stopped, where stopping works, and forgotten. */
  function RetireSpec(st: State, gone: set<Int64>, stopOk: set<Int64>): State
    requires Owned(st)
  {
    State(st.procs - gone, Halted(st, gone, stopOk), st.work.(stops := st.work.stops + |gone * st.procs.Keys|))
  }

  function Halted(st: State, gone: set<Int64>, stopOk: set<Int64>): (ps: seq<Process>)
    ensures |ps| == |st.processes|
    ensures forall i :: 0 <= i < |ps| ==>
      ps[i] == if Retires(st, gone, stopOk, i) then st.processes[i].(running := false) else st.processes[i]
  {
    seq(|st.processes|, i requires 0 <= i < |st.processes| =>
      if Retires(st, gone, stopOk, i) then st.processes[i].(running := false) else st.processes[i])
  }

  predicate Retires(st: State, gone: set<Int64>, stopOk: set<Int64>, pid: nat)
    requires pid < |st.processes|
  {
    var id := st.processes[pid].id;
    id in gone && id in stopOk && id in st.procs && st.procs[id].pid == pid
  }

  function Ids(desired: seq<Instance>): set<Int64> {
    set i | 0 <= i < |desired| :: desired[i].id
  }

  function EnsureAllSpec(st: State, desired: seq<Instance>, os: seq<Outcome>): State
    requires Owned(st) && |os| == |desired|
    ensures Owned(EnsureAllSpec(st, desired, os))
    decreases |desired|
  {
    if desired == [] then st
    else
      var n := |desired| - 1;
      var before := EnsureAllSpec(st, desired[..n], os[..n]);
      EnsureKeepsOwned(before, desired[n], os[n]);
      EnsureSpec(before, desired[n], os[n]).0
  }

  function ReconcileSpec(st: State, desired: seq<Instance>, os: seq<Outcome>, stopOk: set<Int64>): (r: State)
    requires Owned(st) && |os| == |desired|
    ensures Owned(r)
  {
    RetireKeepsOwned(st, st.procs.Keys - Ids(desired), stopOk);
    var kept := RetireSpec(st, st.procs.Keys - Ids(desired), stopOk);
    EnsureAllSpec(kept, desired, os)
  }

  lemma StartKeepsOwned(st: State, inst: Instance, o: Outcome)
    requires Owned(st)
    ensures Owned(StartSpec(st, inst, o).0)
  {
    hide StructuralFingerprint, SecretsFingerprint;
  }

  lemma StopKeepsOwned(st: State, id: Int64, ok: bool)
    requires Owned(st) && id in st.procs
    ensures Owned(StopSpec(st, id, ok))
  {
  }

  lemma PushKeepsOwned(st: State, inst: Instance, reply: Reply)
    requires Owned(st) && inst.id in st.procs
    ensures Owned(PushSpec(st, inst, reply))
  {
  }

  lemma EditKeepsOwned(st: State, id: Int64, tag: string, secretsFP: string)
    requires Owned(st) && id in st.procs
    ensures Owned(st.(procs := st.procs[id := st.procs[id].(tag := tag, secretsFP := secretsFP)]))
  {
  }

  lemma EnsureKeepsOwned(st: State, inst: Instance, o: Outcome)
    requires Owned(st)
    ensures Owned(EnsureSpec(st, inst, o).0)
  {
    hide StructuralFingerprint, SecretsFingerprint, Owned, StartSpec, StopSpec, PushSpec, ActionOn;
    StartKeepsOwned(st, inst, o);
    if inst.id in st.procs {
      var cur, pushed := st.procs[inst.id], PushSpec(st, inst, o.reply);
      EditKeepsOwned(st, inst.id, inst.tag, cur.secretsFP);
      PushKeepsOwned(st, inst, o.reply);
      assert pushed.procs == st.procs by { PushKeepsEntries(st, inst, o.reply); }
      EditKeepsOwned(pushed, inst.id, inst.tag, SecretsFingerprint(inst.secrets));
      StopKeepsOwned(pushed, inst.id, o.stopped);
      StartKeepsOwned(StopSpec(pushed, inst.id, o.stopped), inst, o);
      StopKeepsOwned(st, inst.id, o.stopped);
      StartKeepsOwned(StopSpec(st, inst.id, o.stopped), inst, o);
      OwnedIgnoresWork(st);
    }
  }

  lemma PushKeepsEntries(st: State, inst: Instance, reply: Reply)
    requires Owned(st) && inst.id in st.procs
    ensures PushSpec(st, inst, reply).procs == st.procs
  {
  }

  lemma OwnedIgnoresWork(st: State)
    requires Owned(st)
    ensures Owned(st.(work := Wrote(st.work)))
  {
  }

  // ---- the manager -----------------------------------------------------------------------

  class Manager {
    var procs: map<Int64, Managed>
    const host: Host

    constructor (h: Host)
      ensures procs == map[] && host == h
    {
      procs := map[];
      host := h;
    }

    ghost function View(): State
      reads this, host
    {
      State(procs, host.processes, host.work)
    }

    method StartFresh(inst: Instance, o: Outcome) returns (ok: bool)
      modifies this, host
      ensures (View(), ok) == StartSpec(old(View()), inst, o)
    {
      hide StructuralFingerprint, SecretsFingerprint;
      if o.port.None? {
        return false;
      }
      if o.token.None? {
        return false;
      }
      var written := host.WriteConfig(o.written);
      if !written {
        return false;
      }
      var pid := host.Start(inst, o.port.value, o.token.value, o.started);
      if pid.None? {
        return false;
      }
      procs := procs[inst.id := NewEntry(pid.value, inst, o.port.value, o.token.value)];
      return true;
    }

    method StopAndForget(id: Int64, stopped: bool)
      requires Owned(View()) && id in procs
      modifies this, host
      ensures View() == StopSpec(old(View()), id, stopped)
    {
      host.Stop(procs[id].pid, stopped);
      procs := procs - {id};
    }

    method EnsureLocked(inst: Instance, o: Outcome) returns (ok: bool)
      requires Owned(View())
      modifies this, host
      ensures (View(), ok) == EnsureSpec(old(View()), inst, o)
    {
      hide StructuralFingerprint, SecretsFingerprint, StartSpec;
      var structFP, secFP := StructuralFingerprint(inst), SecretsFingerprint(inst.secrets);
      if inst.id in procs {
        var cur := procs[inst.id];
        var running := host.IsRunning(cur.pid);
        var action := EnsureActionFor(running, cur.structuralFP, cur.secretsFP, structFP, secFP);
        if action.Noop? {
          procs := procs[inst.id := cur.(tag := inst.tag)];
          return true;
        }
        if action.Reload? {
          var written := host.WriteConfig(o.rewritten);
          if !written {
            return false;
          }
          var applied := host.Push(cur.pid, inst.secrets, o.reply);
          if applied {
            procs := procs[inst.id := cur.(tag := inst.tag, secretsFP := secFP)];
            return true;
          }
        }
        StopAndForget(inst.id, o.stopped);
      }
      ok := StartFresh(inst, o);
    }

    method Remove(id: Int64, stopped: bool)
      requires Owned(View())
      modifies this, host
      ensures View() == RetireSpec(old(View()), {id}, if stopped then {id} else {})
    {
      ghost var before := View();
      RetireOne(before, id, stopped);
      if id in procs {
        StopAndForget(id, stopped);
      }
    }

    /** Walks the process map in any order, stopping and forgetting what is not wanted. */
    method Retire(want: set<Int64>, stopOk: set<Int64>)
      requires Owned(View())
      modifies this, host
      ensures View() == RetireSpec(old(View()), old(procs).Keys - want, stopOk)
    {
      hide Owned, RetireSpec, StopSpec;
      ghost var before := View();
      var todo := procs.Keys;
      ghost var done: set<Int64> := {};
      RetireNone(before, stopOk);
      while todo != {}
        invariant todo <= before.procs.Keys && done == before.procs.Keys - todo - want
        invariant View() == RetireSpec(before, done, stopOk)
      {
        var id :| id in todo;
        todo := todo - {id};
        if id !in want {
          RetireKeepsOwned(before, done, stopOk);
          RetireKeys(before, done, stopOk);
          RetireStep(before, done, id, stopOk);
          StopAndForget(id, id in stopOk);
          done := done + {id};
        }
      }
      assert done == before.procs.Keys - want;
    }

    method WantedIds(desired: seq<Instance>) returns (want: set<Int64>)
      ensures want == Ids(desired)
    {
      want := {};
      for i := 0 to |desired|
        invariant want == Ids(desired[..i])
      {
        want := want + {desired[i].id};
        IdsExtend(desired, i);
      }
      assert desired[..|desired|] == desired;
    }

    method EnsureAll(desired: seq<Instance>, os: seq<Outcome>)
      requires Owned(View()) && |os| == |desired|
      modifies this, host
      ensures View() == EnsureAllSpec(old(View()), desired, os)
    {
      hide EnsureSpec, Owned;
      ghost var kept := View();
      for i := 0 to |desired|
        invariant View() == EnsureAllSpec(kept, desired[..i], os[..i])
      {
        assert desired[..i+1][..i] == desired[..i] && os[..i+1][..i] == os[..i];
        var ok := EnsureLocked(desired[i], os[i]);
      }
      assert desired[..|desired|] == desired && os[..|os|] == os;
    }

    method Reconcile(desired: seq<Instance>, os: seq<Outcome>, stopOk: set<Int64>)
      requires Owned(View()) && |os| == |desired|
      modifies this, host
      ensures View() == ReconcileSpec(old(View()), desired, os, stopOk)
    {
      hide Owned, EnsureAllSpec, RetireSpec;
      var want := WantedIds(desired);
      RetireKeepsOwned(View(), procs.Keys - want, stopOk);
      Retire(want, stopOk);
      EnsureAll(desired, os);
    }

    method StopAll(stopOk: set<Int64>)
      requires Owned(View())
      modifies this, host
      ensures procs == map[] && View() == RetireSpec(old(View()), old(procs).Keys, stopOk)
    {
      hide RetireSpec;
      RetireKeys(View(), procs.Keys, stopOk);
      assert procs.Keys - {} == procs.Keys;
      Retire({}, stopOk);
      assert procs.Keys == {};
      assert procs == map[];
    }
  }

  lemma IdsExtend(desired: seq<Instance>, i: nat)
    requires i < |desired|
    ensures Ids(desired[..i+1]) == Ids(desired[..i]) + {desired[i].id}
  {
    forall id | id in Ids(desired[..i+1])
      ensures id in Ids(desired[..i]) + {desired[i].id}
    {
      var k :| 0 <= k < i + 1 && desired[..i+1][k].id == id;
      if k < i {
        assert desired[..i][k].id == id;
      }
    }
    forall id | id in Ids(desired[..i]) + {desired[i].id}
      ensures id in Ids(desired[..i+1])
    {
      if id == desired[i].id {
        assert desired[..i+1][i].id == id;
      } else {
        var k :| 0 <= k < i && desired[..i][k].id == id;
        assert desired[..i+1][k].id == id;
      }
    }
  }

  lemma RetireKeepsOwned(st: State, gone: set<Int64>, stopOk: set<Int64>)
    requires Owned(st)
    ensures Owned(RetireSpec(st, gone, stopOk))
  {
  }

  lemma RetireKeys(st: State, gone: set<Int64>, stopOk: set<Int64>)
    requires Owned(st)
    ensures RetireSpec(st, gone, stopOk).procs.Keys == st.procs.Keys - gone
  {
  }

  lemma RetireNone(st: State, stopOk: set<Int64>)
    requires Owned(st)
    ensures RetireSpec(st, {}, stopOk) == st
  {
    hide Halted;
    assert {} * st.procs.Keys == {};
    assert st.procs - {} == st.procs;
    assert Halted(st, {}, stopOk) == st.processes;
  }

  lemma RetireStranger(st: State, id: Int64, stopOk: set<Int64>)
    requires Owned(st) && id !in st.procs
    ensures RetireSpec(st, {id}, stopOk) == st
  {
    hide Halted;
    assert st.procs - {id} == st.procs;
    HaltStranger(st, id, stopOk);
    assert {id} * st.procs.Keys == {};
  }

  lemma HaltStranger(st: State, id: Int64, stopOk: set<Int64>)
    requires Owned(st) && id !in st.procs
    ensures Halted(st, {id}, stopOk) == st.processes
  {
    hide Halted, Owned;
    assert forall i :: 0 <= i < |st.processes| ==> !Retires(st, {id}, stopOk, i);
  }

  lemma RetireOne(st: State, id: Int64, stopped: bool)
    requires Owned(st)
    ensures RetireSpec(st, {id}, if stopped then {id} else {})
      == if id in st.procs then StopSpec(st, id, stopped) else st
  {
    hide RetireSpec, Owned, StopSpec;
    var stopOk := if stopped then {id} else {};
    if id in st.procs {
      RetireNone(st, stopOk);
      RetireStep(st, {}, id, stopOk);
      assert {} + {id} == {id};
    } else {
      RetireStranger(st, id, stopOk);
    }
  }

  lemma HaltOneMore(st: State, gone: set<Int64>, id: Int64, stopOk: set<Int64>)
    requires Owned(st) && id in st.procs && id !in gone
    ensures Stopped(Halted(st, gone, stopOk), st.procs[id].pid, id in stopOk) == Halted(st, gone + {id}, stopOk)
  {
    hide Halted;
    var x, y := Stopped(Halted(st, gone, stopOk), st.procs[id].pid, id in stopOk), Halted(st, gone + {id}, stopOk);
    forall i | 0 <= i < |x|
      ensures x[i] == y[i]
    {
      assert Retires(st, gone + {id}, stopOk, i) <==>
        Retires(st, gone, stopOk, i) || (id in stopOk && i == st.procs[id].pid);
    }
  }

  lemma RetireStep(st: State, gone: set<Int64>, id: Int64, stopOk: set<Int64>)
    requires Owned(st) && id in st.procs && id !in gone
    requires Owned(RetireSpec(st, gone, stopOk))
    ensures StopSpec(RetireSpec(st, gone, stopOk), id, id in stopOk) == RetireSpec(st, gone + {id}, stopOk)
  {
    hide Halted, Owned, Stopped;
    HaltOneMore(st, gone, id, stopOk);
    assert (st.procs - gone) - {id} == st.procs - (gone + {id});
    assert (gone + {id}) * st.procs.Keys == gone * st.procs.Keys + {id};
  }
}
