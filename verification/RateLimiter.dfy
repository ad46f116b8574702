/**
 The notification rate limiter (internal/eventbus/filter.go): it forgets old keys, yet answers like
 one that forgets nothing, as long as the clock does not run backwards.
 */
module RateLimiter {
  import opened Prelude
  import opened Text

  /** time.Sub: the difference, saturating at the ends of the 64-bit range. */
  function Sub(a: int, b: int): (d: Int64) {
    if a - b > MaxInt64 then MaxInt64 else if a - b < MinInt64 then MinInt64 else a - b
  }

  /** Time since the key was last sent; a key never sent dates from the zero time, centuries ago. */
  function Since(m: map<string, int>, key: string, now: int): Int64 {
    if key in m then Sub(now, m[key]) else MaxInt64
  }

  datatype State = State(lastSent: map<string, int>, lastPrune: Option<int>)

  const Empty := State(map[], None)

  function Young(m: map<string, int>, now: int, cooldown: Int64): map<string, int> {
    map k | k in m && Sub(now, m[k]) < cooldown :: m[k]
  }

  function Prune(st: State, now: int, cooldown: Int64): State {
    if st.lastPrune.Some? && Sub(now, st.lastPrune.value) < cooldown then st
    else State(Young(st.lastSent, now, cooldown), Some(now))
  }

  function AllowStep(st: State, key: string, now: int, cooldown: Int64): (State, bool) {
    var pruned := Prune(st, now, cooldown);
    if Since(pruned.lastSent, key, now) < cooldown then (pruned, false)
    else (pruned.(lastSent := pruned.lastSent[key := now]), true)
  }

  class Limiter {
    var lastSent: map<string, int>
    var lastPrune: Option<int>
    const cooldown: Int64

    constructor (c: Int64)
      ensures cooldown == c && View() == Empty
    {
      lastSent, lastPrune, cooldown := map[], None, c;
    }

    function View(): State
      reads this
    {
      State(lastSent, lastPrune)
    }

    method Allow(eventType: string, source: string, now: int) returns (ok: bool)
      modifies this
      ensures (View(), ok) == AllowStep(old(View()), eventType + ":" + source, now, cooldown)
    {
      var key := eventType + ":" + source;
      PruneLocked(now);
      if Since(lastSent, key, now) < cooldown {
        return false;
      }
      lastSent := lastSent[key := now];
      return true;
    }

    method PruneLocked(now: int)
      modifies this
      ensures View() == Prune(old(View()), now, cooldown)
    {
      if lastPrune.Some? && Sub(now, lastPrune.value) < cooldown {
        return;
      }
      lastPrune := Some(now);
      ghost var before := lastSent;
      var todo := lastSent.Keys;
      while todo != {}
        invariant todo <= before.Keys && lastPrune == Some(now)
        invariant forall k :: k in lastSent <==> k in before && (k in todo || Sub(now, before[k]) < cooldown)
        invariant forall k :: k in lastSent ==> lastSent[k] == before[k]
      {
        var k :| k in todo;
        todo := todo - {k};
        if Sub(now, lastSent[k]) >= cooldown {
          lastSent := lastSent - {k};
        }
      }
      assert lastSent == Young(before, now, cooldown);
    }
  }

  // ---- a limiter that forgets nothing ------------------------------------------------

  datatype Event = Event(key: string, now: int)

  function FullStep(m: map<string, int>, e: Event, cooldown: Int64): (map<string, int>, bool) {
    if Since(m, e.key, e.now) < cooldown then (m, false) else (m[e.key := e.now], true)
  }

  function FullRun(es: seq<Event>, cooldown: Int64): (map<string, int>, seq<bool>) {
    if es == [] then (map[], [])
    else
      var before := FullRun(es[..|es| - 1], cooldown);
      var step := FullStep(before.0, es[|es| - 1], cooldown);
      (step.0, before.1 + [step.1])
  }

  function Run(es: seq<Event>, cooldown: Int64): (State, seq<bool>) {
    if es == [] then (Empty, [])
    else
      var e := es[|es| - 1];
      var before := Run(es[..|es| - 1], cooldown);
      var step := AllowStep(before.0, e.key, e.now, cooldown);
      (step.0, before.1 + [step.1])
  }

  predicate ClockForward(es: seq<Event>) {
    forall i, j :: 0 <= i < j < |es| ==> es[i].now <= es[j].now
  }

  /** The pruned map is the full one without keys whose cooldown is over. */
  predicate Covers(st: State, full: map<string, int>, now: int, cooldown: Int64) {
    && (forall k :: k in st.lastSent ==> k in full && full[k] == st.lastSent[k])
    && (forall k :: k in full && k !in st.lastSent ==> Sub(now, full[k]) >= cooldown)
  }

  lemma StepCovers(st: State, full: map<string, int>, e: Event, before: int, cooldown: Int64)
    requires Covers(st, full, before, cooldown) && before <= e.now
    ensures AllowStep(st, e.key, e.now, cooldown).1 == FullStep(full, e, cooldown).1
    ensures Covers(AllowStep(st, e.key, e.now, cooldown).0, FullStep(full, e, cooldown).0, e.now, cooldown)
  {
  }

  lemma {:induction false} RunCovers(es: seq<Event>, cooldown: Int64)
    requires ClockForward(es)
    ensures Run(es, cooldown).1 == FullRun(es, cooldown).1
    ensures es != [] ==> Covers(Run(es, cooldown).0, FullRun(es, cooldown).0, es[|es| - 1].now, cooldown)
  {
    hide AllowStep, FullStep, Covers;
    if es != [] {
      var n := |es| - 1;
      var front := es[..n];
      RunCovers(front, cooldown);
      var before := if n == 0 then es[n].now else es[n - 1].now;
      if n == 0 {
        NothingCovered(es[n].now, cooldown);
      }
      StepCovers(Run(front, cooldown).0, FullRun(front, cooldown).0, es[n], before, cooldown);
    }
  }

  lemma NothingCovered(now: int, cooldown: Int64)
    ensures Covers(Empty, map[], now, cooldown)
  {
  }

  /** With a clock that never runs back, pruning changes no answer on any run. */
  lemma PruningIsInvisible(es: seq<Event>, cooldown: Int64)
    requires ClockForward(es)
    ensures Run(es, cooldown).1 == FullRun(es, cooldown).1
  {
    RunCovers(es, cooldown);
  }

  /** With one that does, it can: an early deletion lets an event through. */
  lemma BackwardClockBreaks(a: Event, b: Event, c: Event)
    requires a == Event("k", 100) && b == Event("other", 111) && c == Event("k", 105)
    ensures Run([a, b, c], 10).1 == [true, true, true] && FullRun([a, b, c], 10).1 == [true, true, false]
  {
    hide AllowStep, FullStep, Run, FullRun;
    RunNext([], a, 10);
    RunNext([a], b, 10);
    RunNext([a, b], c, 10);
    assert [] + [a] == [a] && [a] + [b] == [a, b] && [a, b] + [c] == [a, b, c];
    BackwardSteps();
  }

  lemma BackwardSteps()
    ensures AllowStep(Empty, "k", 100, 10) == (State(map["k" := 100], Some(100)), true)
    ensures AllowStep(State(map["k" := 100], Some(100)), "other", 111, 10)
      == (State(map["other" := 111], Some(111)), true)
    ensures AllowStep(State(map["other" := 111], Some(111)), "k", 105, 10).1
    ensures FullStep(map[], Event("k", 100), 10) == (map["k" := 100], true)
    ensures FullStep(map["k" := 100], Event("other", 111), 10) == (map["k" := 100, "other" := 111], true)
    ensures !FullStep(map["k" := 100, "other" := 111], Event("k", 105), 10).1
  {
    assert Young(map["k" := 100], 111, 10) == map[];
    assert Young(map[], 100, 10) == map[];
  }

  lemma RunNext(es: seq<Event>, e: Event, cooldown: Int64)
    ensures Run([], cooldown) == (Empty, []) && FullRun([], cooldown) == (map[], [])
    ensures var step := AllowStep(Run(es, cooldown).0, e.key, e.now, cooldown);
      Run(es + [e], cooldown) == (step.0, Run(es, cooldown).1 + [step.1])
    ensures var step := FullStep(FullRun(es, cooldown).0, e, cooldown);
      FullRun(es + [e], cooldown) == (step.0, FullRun(es, cooldown).1 + [step.1])
  {
    hide AllowStep, FullStep;
    assert (es + [e])[..|es + [e]| - 1] == es;
  }

  // ---- spacing ---------------------------------------------------------------------------

  /** The full map holds the time of each key's latest allowed event. */
  lemma {:induction false} LatestAllowed(es: seq<Event>, cooldown: Int64, i: nat)
    requires ClockForward(es) && i < |es| == |FullRun(es, cooldown).1| && FullRun(es, cooldown).1[i]
    ensures es[i].key in FullRun(es, cooldown).0 && es[i].now <= FullRun(es, cooldown).0[es[i].key] <= es[|es| - 1].now
  {
    var n := |es| - 1;
    AnswerPerEvent(es[..n], cooldown);
    if i < n {
      LatestAllowed(es[..n], cooldown, i);
      assert es[..n][i] == es[i] && es[n - 1].now <= es[n].now;
    }
  }

  lemma {:induction false} AnswerPerEvent(es: seq<Event>, cooldown: Int64)
    ensures |FullRun(es, cooldown).1| == |es|
  {
    if es != [] {
      AnswerPerEvent(es[..|es| - 1], cooldown);
    }
  }

  lemma {:induction false} AnswersStay(es: seq<Event>, cooldown: Int64, j: nat)
    requires j < |es|
    ensures |FullRun(es, cooldown).1| == |es| && |FullRun(es[..j + 1], cooldown).1| == j + 1
    ensures FullRun(es, cooldown).1[j] == FullRun(es[..j + 1], cooldown).1[j]
  {
    hide FullStep;
    AnswerPerEvent(es, cooldown);
    AnswerPerEvent(es[..j + 1], cooldown);
    var n := |es| - 1;
    if j < n {
      AnswersStay(es[..n], cooldown, j);
      assert es[..n][..j + 1] == es[..j + 1];
    } else {
      assert es[..j + 1] == es;
    }
  }

  lemma AllowedMeansElapsed(es: seq<Event>, cooldown: Int64, j: nat)
    requires j < |es| == |FullRun(es, cooldown).1| && FullRun(es, cooldown).1[j]
    ensures Since(FullRun(es[..j], cooldown).0, es[j].key, es[j].now) >= cooldown
  {
    AnswersStay(es, cooldown, j);
    var upto := es[..j + 1];
    assert upto[..|upto| - 1] == es[..j] && upto[j] == es[j];
    AnswerPerEvent(es[..j], cooldown);
  }

  /** Two allowed events of one key are at least a cooldown apart. */
  lemma AllowedAreSpaced(es: seq<Event>, cooldown: Int64, i: nat, j: nat)
    requires ClockForward(es) && i < j < |es| == |Run(es, cooldown).1|
    requires es[i].key == es[j].key && Run(es, cooldown).1[i] && Run(es, cooldown).1[j]
    ensures Sub(es[j].now, es[i].now) >= cooldown
  {
    hide Run, FullRun;
    RunCovers(es, cooldown);
    AllowedMeansElapsed(es, cooldown, j);
    var before := es[..j];
    AnswersStay(es, cooldown, i);
    AnswersStay(before, cooldown, i);
    assert before[..i + 1] == es[..i + 1] && before[i] == es[i];
    LatestAllowed(before, cooldown, i);
  }

  // ---- what is kept ------------------------------------------------------------------------

  /** Keys were sent at or after the last prune, or were young then; no time lies ahead. */
  predicate Fresh(st: State, now: int, cooldown: Int64) {
    && st.lastPrune.Some? && st.lastPrune.value <= now && now - st.lastPrune.value < cooldown
    && forall k :: k in st.lastSent ==> st.lastSent[k] <= now && st.lastPrune.value - st.lastSent[k] < cooldown
  }


  lemma StepIsFresh(st: State, e: Event, before: int, cooldown: Int64)
    requires 0 < cooldown && before <= e.now
    requires st == Empty || Fresh(st, before, cooldown)
    ensures Fresh(AllowStep(st, e.key, e.now, cooldown).0, e.now, cooldown)
  {
  }

  lemma {:induction false} RunIsFresh(es: seq<Event>, cooldown: Int64)
    requires ClockForward(es) && es != [] && 0 < cooldown
    ensures Fresh(Run(es, cooldown).0, es[|es| - 1].now, cooldown)
  {
    hide AllowStep, Fresh;
    var n := |es| - 1;
    if n > 0 {
      RunIsFresh(es[..n], cooldown);
      assert es[n - 1].now <= es[n].now;
      StepIsFresh(Run(es[..n], cooldown).0, es[n], es[n - 1].now, cooldown);
    } else {
      assert es[..0] == [];
      StepIsFresh(Empty, es[0], es[0].now, cooldown);
    }
  }

  /** Every retained key is younger than two cooldowns, exactly when there is a cooldown at all. */
  lemma RetainedAreYoung(es: seq<Event>, cooldown: Int64)
    requires ClockForward(es) && es != []
    ensures var st := Run(es, cooldown).0;
      (forall k :: k in st.lastSent ==> es[|es| - 1].now - st.lastSent[k] < 2 * cooldown) <==> 0 < cooldown
  {
    if 0 < cooldown {
      RunIsFresh(es, cooldown);
    } else {
      var e := es[|es| - 1];
      RunAllows(es, cooldown);
      assert Run(es, cooldown).0.lastSent[e.key] == e.now;
    }
  }

  /** Without a cooldown every event passes and is the youngest key. */
  lemma RunAllows(es: seq<Event>, cooldown: Int64)
    requires ClockForward(es) && es != [] && cooldown <= 0
    ensures es[|es| - 1].key in Run(es, cooldown).0.lastSent
    ensures Run(es, cooldown).0.lastSent[es[|es| - 1].key] == es[|es| - 1].now
  {
    var n := |es| - 1;
    RunIsPast(es, cooldown, n);
  }

  lemma {:induction false} RunIsPast(es: seq<Event>, cooldown: Int64, n: nat)
    requires ClockForward(es) && n < |es|
    ensures forall k :: k in Run(es[..n], cooldown).0.lastSent ==> Run(es[..n], cooldown).0.lastSent[k] <= es[n].now
  {
    if n > 0 {
      RunIsPast(es, cooldown, n - 1);
      assert es[..n][..n - 1] == es[..n - 1] && es[n - 1].now <= es[n].now;
    }
  }
}
