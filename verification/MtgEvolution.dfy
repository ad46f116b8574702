/**
 What the manager's calls do to the process history: processes already started keep their id,
 port, token and counters; new ones start at zero with no last scrape.
 */
module MtgEvolution {
  import opened Prelude
  import opened Text
  import opened MtgConfig
  import opened MtgManager
  import opened MtgReconcile
  import opened MtgTraffic

  predicate SameProcess(p: Process, q: Process) {
    p.id == q.id && p.port == q.port && p.token == q.token && p.meter == q.meter
  }

  predicate SameEntry(m: Managed, n: Managed) {
    m.pid == n.pid && m.apiPort == n.apiPort && m.apiToken == n.apiToken && m.last == n.last
  }

  predicate History(a: seq<Process>, b: seq<Process>, issued: set<string>) {
    && |a| <= |b|
    && (forall i :: 0 <= i < |a| ==> SameProcess(a[i], b[i]))
    && (forall i :: |a| <= i < |b| ==> b[i].meter == NewMeter && b[i].token in issued)
    && (forall i, j :: |a| <= i < j < |b| ==> b[i].token != b[j].token)
  }

  predicate Entries(a: State, b: State) {
    forall id :: id in b.procs ==>
      if b.procs[id].pid < |a.processes| then id in a.procs && SameEntry(a.procs[id], b.procs[id])
      else b.procs[id].last == map[]
  }

  /** Old processes stay what they were; new ones start at zero, on tokens from issued. */
  predicate Evolves(a: State, b: State, issued: set<string>) {
    Owned(a) && Owned(b) && History(a.processes, b.processes, issued) && Entries(a, b)
  }

  lemma HistoryTwice(a: seq<Process>, b: seq<Process>, c: seq<Process>, s: set<string>, t: set<string>)
    requires History(a, b, s) && History(b, c, t) && s !! t
    ensures History(a, c, s + t)
  {
    forall i | |a| <= i < |b|
      ensures SameProcess(b[i], c[i]) && c[i].meter == NewMeter && c[i].token in s
    {
    }
    forall i, j | |a| <= i < j < |c|
      ensures c[i].token != c[j].token
    {
      if j >= |b| {
        assert c[j].token in t;
      }
    }
  }

  lemma EvolvesTwice(a: State, b: State, c: State, s: set<string>, t: set<string>)
    requires Evolves(a, b, s) && Evolves(b, c, t) && s !! t
    ensures Evolves(a, c, s + t)
  {
    HistoryTwice(a.processes, b.processes, c.processes, s, t);
    forall id | id in c.procs
      ensures if c.procs[id].pid < |a.processes| then id in a.procs && SameEntry(a.procs[id], c.procs[id])
              else c.procs[id].last == map[]
    {
      if c.procs[id].pid < |b.processes| {
        assert id in b.procs && SameEntry(b.procs[id], c.procs[id]);
      }
    }
  }

  /** The token a start would use. */
  function Issued(o: Outcome): set<string> {
    match o.token
    case Some(t) => {t}
    case None => {}
  }

  lemma StartEvolves(st: State, inst: Instance, o: Outcome)
    requires Owned(st)
    ensures Evolves(st, StartSpec(st, inst, o).0, Issued(o))
  {
    hide StructuralFingerprint, SecretsFingerprint;
    StartKeepsOwned(st, inst, o);
  }

  lemma StopEvolves(st: State, id: Int64, ok: bool)
    requires Owned(st) && id in st.procs
    ensures Evolves(st, StopSpec(st, id, ok), {})
  {
    StopKeepsOwned(st, id, ok);
  }

  lemma PushEvolves(st: State, inst: Instance, reply: Reply)
    requires Owned(st) && inst.id in st.procs
    ensures Evolves(st, PushSpec(st, inst, reply), {})
  {
    PushKeepsOwned(st, inst, reply);
  }

  lemma EditEvolves(st: State, id: Int64, tag: string, secretsFP: string)
    requires Owned(st) && id in st.procs
    ensures Evolves(st, st.(procs := st.procs[id := st.procs[id].(tag := tag, secretsFP := secretsFP)]), {})
  {
    EditKeepsOwned(st, id, tag, secretsFP);
  }

  lemma RestartEvolves(a: State, st: State, inst: Instance, o: Outcome)
    requires Evolves(a, st, {}) && inst.id in st.procs
    ensures Evolves(a, StartSpec(StopSpec(st, inst.id, o.stopped), inst, o).0, Issued(o))
  {
    hide StartSpec, StopSpec, Evolves, Issued;
    EvolvesOwned(a, st, {});
    StopEvolves(st, inst.id, o.stopped);
    var stopped := StopSpec(st, inst.id, o.stopped);
    EvolvesOwned(st, stopped, {});
    EvolvesTwice(a, st, stopped, {}, {});
    StartEvolves(stopped, inst, o);
    EvolvesTwice(a, stopped, StartSpec(stopped, inst, o).0, {} + {}, Issued(o));
    assert {} + {} + Issued(o) == Issued(o);
  }

  lemma EvolvesOwned(a: State, b: State, issued: set<string>)
    requires Evolves(a, b, issued)
    ensures Owned(a) && Owned(b)
  {
  }

  lemma StayEvolves(st: State, w: Work, issued: set<string>)
    requires Owned(st)
    ensures Evolves(st, st.(work := w), issued)
  {
  }

  lemma WidenEvolves(a: State, b: State, s: set<string>, t: set<string>)
    requires Evolves(a, b, s) && s <= t
    ensures Evolves(a, b, t)
  {
  }

  lemma EnsureEvolves(st: State, inst: Instance, o: Outcome)
    requires Owned(st)
    ensures Evolves(st, EnsureSpec(st, inst, o).0, Issued(o))
  {
    hide StructuralFingerprint, SecretsFingerprint, StartSpec, StopSpec, PushSpec, ActionOn, Evolves, Issued, Owned;
    if inst.id !in st.procs {
      StartEvolves(st, inst, o);
    } else {
      var cur, pushed := st.procs[inst.id], PushSpec(st, inst, o.reply);
      match ActionOn(st, inst)
      case Noop =>
        EditEvolves(st, inst.id, inst.tag, cur.secretsFP);
        WidenEvolves(st, EnsureSpec(st, inst, o).0, {}, Issued(o));
      case Restart =>
        StayEvolves(st, st.work, {});
        RestartEvolves(st, st, inst, o);
      case Reload =>
        PushKeepsOwned(st, inst, o.reply);
        PushKeepsEntries(st, inst, o.reply);
        PushEvolves(st, inst, o.reply);
        if !o.rewritten {
          StayEvolves(st, Wrote(st.work), Issued(o));
        } else if o.reply.Applied? {
          EditEvolves(pushed, inst.id, inst.tag, SecretsFingerprint(inst.secrets));
          EvolvesTwice(st, pushed, EnsureSpec(st, inst, o).0, {}, {});
          WidenEvolves(st, EnsureSpec(st, inst, o).0, {} + {}, Issued(o));
        } else {
          RestartEvolves(st, pushed, inst, o);
        }
    }
  }

  lemma RetireEvolves(st: State, gone: set<Int64>, stopOk: set<Int64>)
    requires Owned(st)
    ensures Evolves(st, RetireSpec(st, gone, stopOk), {})
  {
    hide Halted, Retires;
    RetireKeepsOwned(st, gone, stopOk);
  }

  /** Every token is issued once: none is used before, and no two starts share one. */
  function AllIssued(os: seq<Outcome>): set<string> {
    if os == [] then {} else AllIssued(os[..|os| - 1]) + Issued(os[|os| - 1])
  }

  predicate OnceEach(os: seq<Outcome>) {
    os == [] || (OnceEach(os[..|os| - 1]) && AllIssued(os[..|os| - 1]) !! Issued(os[|os| - 1]))
  }

  lemma {:induction false} EnsureAllEvolves(st: State, desired: seq<Instance>, os: seq<Outcome>)
    requires Owned(st) && |os| == |desired| && OnceEach(os)
    ensures Evolves(st, EnsureAllSpec(st, desired, os), AllIssued(os))
    decreases |desired|
  {
    hide EnsureSpec, Evolves, Owned, Issued;
    if desired == [] {
      StayEvolves(st, st.work, {});
    } else {
      var n := |desired| - 1;
      var before := EnsureAllSpec(st, desired[..n], os[..n]);
      EnsureAllEvolves(st, desired[..n], os[..n]);
      EnsureEvolves(before, desired[n], os[n]);
      EvolvesTwice(st, before, EnsureAllSpec(st, desired, os), AllIssued(os[..n]), Issued(os[n]));
    }
  }

  function CallTokens(call: Call): set<string> {
    match call
    case Ensure(_, o) => Issued(o)
    case Reconcile(_, os, _) => AllIssued(os)
    case _ => {}
  }

  /** newAPIToken never returns a token twice. */
  predicate FreshTokens(ps: seq<Process>, call: Call) {
    && (forall i :: 0 <= i < |ps| ==> ps[i].token !in CallTokens(call))
    && (call.Reconcile? ==> OnceEach(call.os))
  }

  lemma CallEvolves(st: State, call: Call)
    requires Owned(st) && Possible(st, call) && FreshTokens(st.processes, call)
    ensures Evolves(st, Do(st, call), CallTokens(call))
  {
    hide EnsureSpec, EnsureAllSpec, RetireSpec, Evolves, Owned, AllIssued, OnceEach;
    match call
    case Ensure(inst, o) => EnsureEvolves(st, inst, o);
    case Remove(id, stopped) => RetireEvolves(st, {id}, if stopped then {id} else {});
    case Reconcile(desired, os, stopOk) =>
      var gone := st.procs.Keys - Ids(desired);
      var kept := RetireSpec(st, gone, stopOk);
      RetireEvolves(st, gone, stopOk);
      EvolvesOwned(st, kept, {});
      EnsureAllEvolves(kept, desired, os);
      EvolvesTwice(st, kept, EnsureAllSpec(kept, desired, os), {}, AllIssued(os));
      assert {} + AllIssued(os) == AllIssued(os);
    case StopAll(stopOk) => RetireEvolves(st, st.procs.Keys, stopOk);
    case Crash(pid) => CrashEvolves(st, pid);
  }

  lemma CrashEvolves(st: State, pid: nat)
    requires Owned(st) && pid < |st.processes|
    ensures Evolves(st, st.(processes := Stopped(st.processes, pid, true)), {})
  {
  }
}
