/**
 When pruning is invisible in the rate limiter (internal/eventbus/filter.go).  The clock is read before
 the lock is taken, so times may come out of order; exactly which orders do no harm, whatever the keys.
 */
module LimiterClock {
  import opened Prelude
  import opened Text
  import opened RateLimiter

  function Times(es: seq<Event>): seq<int> {
    seq(|es|, i requires 0 <= i < |es| => es[i].now)
  }

  /** The latest prune after these times; it does not depend on the keys. */
  function LastPrune(ts: seq<int>, cooldown: Int64): Option<int>
    decreases |ts|, 0
  {
    if ts == [] then None
    else if PrunesAt(ts, |ts| - 1, cooldown) then Some(ts[|ts| - 1])
    else LastPrune(ts[..|ts| - 1], cooldown)
  }

  /** The call at position m prunes. */
  predicate PrunesAt(ts: seq<int>, m: nat, cooldown: Int64)
    requires m < |ts|
    decreases m, 1
  {
    var p := LastPrune(ts[..m], cooldown);
    !(p.Some? && Sub(ts[m], p.value) < cooldown)
  }

  /** No prune deletes what was sent at i while a later call still falls into its cooldown. */
  predicate Harmless(ts: seq<int>, cooldown: Int64) {
    forall i, m, j :: 0 <= i < m < j < |ts| && PrunesAt(ts, m, cooldown) && Sub(ts[m], ts[i]) >= cooldown ==>
      Sub(ts[j], ts[i]) >= cooldown
  }

  // ---- harmless times ------------------------------------------------------------------------

  predicate SentAt(ts: seq<int>, n: nat, v: int) {
    exists i :: 0 <= i < n <= |ts| && ts[i] == v
  }

  /** A prune among the first n calls deleted what an earlier one sent at time v. */
  ghost predicate Dropped(ts: seq<int>, n: nat, v: int, cooldown: Int64)
    requires n <= |ts|
  {
    exists i, m :: 0 <= i < m < n && ts[i] == v && PrunesAt(ts, m, cooldown) && Sub(ts[m], v) >= cooldown
  }

  /** The pruned map is the full one but for what prunes deleted. */
  ghost predicate Accounted(st: State, full: map<string, int>, ts: seq<int>, n: nat, cooldown: Int64)
    requires n <= |ts|
  {
    && st.lastPrune == LastPrune(ts[..n], cooldown)
    && (forall k :: k in st.lastSent ==> k in full && full[k] == st.lastSent[k])
    && (forall k :: k in full ==> SentAt(ts, n, full[k]) && (k in st.lastSent || Dropped(ts, n, full[k], cooldown)))
  }

  lemma DroppedStays(ts: seq<int>, n: nat, v: int, cooldown: Int64)
    requires n < |ts|
    ensures SentAt(ts, n, v) ==> SentAt(ts, n + 1, v)
    ensures Dropped(ts, n, v, cooldown) ==> Dropped(ts, n + 1, v, cooldown)
    ensures SentAt(ts, n, v) && PrunesAt(ts, n, cooldown) && Sub(ts[n], v) >= cooldown ==>
      Dropped(ts, n + 1, v, cooldown)
    ensures SentAt(ts, n + 1, ts[n])
    ensures Harmless(ts, cooldown) && Dropped(ts, n, v, cooldown) ==> Sub(ts[n], v) >= cooldown
  {
    hide PrunesAt;
    if SentAt(ts, n, v) {
      var i :| 0 <= i < n && ts[i] == v;
      assert ts[i] == v;
    }
    if Dropped(ts, n, v, cooldown) {
      var i, m :| 0 <= i < m < n && ts[i] == v && PrunesAt(ts, m, cooldown) && Sub(ts[m], v) >= cooldown;
      assert PrunesAt(ts, m, cooldown) && ts[i] == v;
    }
  }

  lemma PruneIs(ts: seq<int>, n: nat, cooldown: Int64)
    requires n < |ts|
    ensures LastPrune(ts[..n + 1], cooldown)
      == if PrunesAt(ts, n, cooldown) then Some(ts[n]) else LastPrune(ts[..n], cooldown)
  {
    assert ts[..n + 1][..n] == ts[..n];
  }

  lemma StepAccounted(st: State, full: map<string, int>, ts: seq<int>, n: nat, key: string, cooldown: Int64)
    requires n < |ts| && Accounted(st, full, ts, n, cooldown) && Harmless(ts, cooldown)
    ensures var e := Event(key, ts[n]);
      && AllowStep(st, key, ts[n], cooldown).1 == FullStep(full, e, cooldown).1
      && Accounted(AllowStep(st, key, ts[n], cooldown).0, FullStep(full, e, cooldown).0, ts, n + 1, cooldown)
  {
    hide Harmless, Dropped, SentAt, LastPrune;
    PruneIs(ts, n, cooldown);
    forall v
      ensures SentAt(ts, n, v) ==> SentAt(ts, n + 1, v)
      ensures Dropped(ts, n, v, cooldown) ==> Dropped(ts, n + 1, v, cooldown)
      ensures SentAt(ts, n, v) && PrunesAt(ts, n, cooldown) && Sub(ts[n], v) >= cooldown ==>
        Dropped(ts, n + 1, v, cooldown)
      ensures SentAt(ts, n + 1, ts[n])
      ensures Dropped(ts, n, v, cooldown) ==> Sub(ts[n], v) >= cooldown
    {
      DroppedStays(ts, n, v, cooldown);
    }
    DroppedStays(ts, n, 0, cooldown);
  }

  lemma {:induction false} HarmlessRun(es: seq<Event>, n: nat, cooldown: Int64)
    requires n <= |es| && Harmless(Times(es), cooldown)
    ensures Run(es[..n], cooldown).1 == FullRun(es[..n], cooldown).1
    ensures Accounted(Run(es[..n], cooldown).0, FullRun(es[..n], cooldown).0, Times(es), n, cooldown)
  {
    hide AllowStep, FullStep, Harmless, Accounted;
    if n == 0 {
      assert es[..0] == [];
      RunNext([], Event("", 0), cooldown);
      NothingAccounted(Times(es), cooldown);
    } else {
      HarmlessRun(es, n - 1, cooldown);
      var front, e := es[..n - 1], es[n - 1];
      assert es[..n] == front + [e] && e == Event(e.key, Times(es)[n - 1]);
      RunNext(front, e, cooldown);
      StepAccounted(Run(front, cooldown).0, FullRun(front, cooldown).0, Times(es), n - 1, e.key, cooldown);
    }
  }

  lemma NothingAccounted(ts: seq<int>, cooldown: Int64)
    ensures Accounted(Empty, map[], ts, 0, cooldown)
  {
    assert ts[..0] == [];
  }

  // ---- other times ------------------------------------------------------------------------------

  /** One key at positions i and j, another key everywhere else. */
  function TwoKeys(ts: seq<int>, i: nat, j: nat): (es: seq<Event>)
    ensures |es| == |ts| && Times(es) == ts
  {
    seq(|ts|, k requires 0 <= k < |ts| => Event(if k == i || k == j then "x" else "y", ts[k]))
  }

  /** The limiter that forgets nothing remembers x since i; the other one has dropped it after m. */
  ghost predicate Between(st: State, full: map<string, int>, ts: seq<int>, i: nat, m: nat, n: nat, cooldown: Int64)
    requires i < |ts| && n <= |ts|
  {
    && st.lastPrune == LastPrune(ts[..n], cooldown)
    && (n <= i ==> "x" !in full && "x" !in st.lastSent)
    && (i < n ==> "x" in full && full["x"] == ts[i])
    && ("x" in st.lastSent ==> n <= m && st.lastSent["x"] == ts[i])
  }

  lemma BetweenNext(st: State, full: map<string, int>, e: Event, ts: seq<int>, i: nat, m: nat, n: nat, cooldown: Int64)
    requires i < m < |ts| && n < |ts| && PrunesAt(ts, m, cooldown) && Sub(ts[m], ts[i]) >= cooldown
    requires Between(st, full, ts, i, m, n, cooldown)
    requires e.now == ts[n] && (e.key == "x" <==> n == i)
    ensures Between(AllowStep(st, e.key, e.now, cooldown).0, FullStep(full, e, cooldown).0, ts, i, m, n + 1, cooldown)
  {
    hide LastPrune;
    PruneIs(ts, n, cooldown);
  }

  lemma {:induction false} BetweenPrune(ts: seq<int>, i: nat, m: nat, j: nat, n: nat, cooldown: Int64)
    requires i < m < j < |ts| && PrunesAt(ts, m, cooldown) && Sub(ts[m], ts[i]) >= cooldown && n <= j
    ensures var es := TwoKeys(ts, i, j)[..n];
      Between(Run(es, cooldown).0, FullRun(es, cooldown).0, ts, i, m, n, cooldown)
  {
    hide LastPrune, PrunesAt, AllowStep, FullStep, Between, Run, FullRun;
    var es := TwoKeys(ts, i, j);
    if n == 0 {
      assert es[..0] == [];
      RunNext([], Event("", 0), cooldown);
      NothingBetween(ts, i, m, cooldown);
    } else {
      BetweenPrune(ts, i, m, j, n - 1, cooldown);
      assert es[..n] == es[..n - 1] + [es[n - 1]];
      RunNext(es[..n - 1], es[n - 1], cooldown);
      BetweenNext(Run(es[..n - 1], cooldown).0, FullRun(es[..n - 1], cooldown).0, es[n - 1], ts, i, m, n - 1, cooldown);
    }
  }

  lemma NothingBetween(ts: seq<int>, i: nat, m: nat, cooldown: Int64)
    requires i < |ts|
    ensures Between(Empty, map[], ts, i, m, 0, cooldown)
  {
    assert ts[..0] == [];
  }

  lemma {:induction false} AnswerAt(es: seq<Event>, j: nat, cooldown: Int64)
    requires j < |es|
    ensures |Run(es, cooldown).1| == |es| && |Run(es[..j + 1], cooldown).1| == j + 1
    ensures Run(es, cooldown).1[j] == Run(es[..j + 1], cooldown).1[j]
  {
    hide AllowStep;
    var n := |es| - 1;
    AnswerCount(es[..n], cooldown);
    if j == n {
      assert es[..j + 1] == es;
    } else {
      AnswerAt(es[..n], j, cooldown);
      assert es[..n][..j + 1] == es[..j + 1];
    }
  }

  lemma {:induction false} AnswerCount(es: seq<Event>, cooldown: Int64)
    ensures |Run(es, cooldown).1| == |es|
  {
    hide AllowStep;
    if es != [] {
      AnswerCount(es[..|es| - 1], cooldown);
    }
  }

  lemma SplitAnswers(st: State, full: map<string, int>, ts: seq<int>, i: nat, m: nat, j: nat, cooldown: Int64)
    requires i < m < j < |ts| && Between(st, full, ts, i, m, j, cooldown) && Sub(ts[j], ts[i]) < cooldown
    ensures AllowStep(st, "x", ts[j], cooldown).1 && !FullStep(full, Event("x", ts[j]), cooldown).1
  {
    hide LastPrune;
  }

  lemma HarmfulBreaks(ts: seq<int>, i: nat, m: nat, j: nat, cooldown: Int64)
    requires i < m < j < |ts| && PrunesAt(ts, m, cooldown)
    requires Sub(ts[m], ts[i]) >= cooldown && Sub(ts[j], ts[i]) < cooldown
    ensures var es := TwoKeys(ts, i, j); Run(es, cooldown).1 != FullRun(es, cooldown).1
  {
    hide LastPrune, PrunesAt, AllowStep, FullStep, Between, Run, FullRun;
    var es := TwoKeys(ts, i, j);
    var front := es[..j];
    BetweenPrune(ts, i, m, j, j, cooldown);
    SplitAnswers(Run(front, cooldown).0, FullRun(front, cooldown).0, ts, i, m, j, cooldown);
    assert es[..j + 1] == front + [es[j]];
    RunNext(front, es[j], cooldown);
    AnswerAt(es, j, cooldown);
    AnswersStay(es, cooldown, j);
    AnswerCount(front, cooldown);
    AnswerPerEvent(front, cooldown);
  }

  /** Pruning changes no answer, whatever the keys, exactly when the times are harmless. */
  lemma PruningIsInvisibleExactly(ts: seq<int>, cooldown: Int64)
    ensures (forall es :: Times(es) == ts ==> Run(es, cooldown).1 == FullRun(es, cooldown).1)
      <==> Harmless(ts, cooldown)
  {
    hide PrunesAt, Run, FullRun;
    if Harmless(ts, cooldown) {
      forall es | Times(es) == ts
        ensures Run(es, cooldown).1 == FullRun(es, cooldown).1
      {
        HarmlessRun(es, |es|, cooldown);
        assert es[..|es|] == es;
      }
    } else {
      var i, m, j :| 0 <= i < m < j < |ts| && PrunesAt(ts, m, cooldown)
        && Sub(ts[m], ts[i]) >= cooldown && Sub(ts[j], ts[i]) < cooldown;
      HarmfulBreaks(ts, i, m, j, cooldown);
      assert Times(TwoKeys(ts, i, j)) == ts;
    }
  }

  /** No call before the latest prune: enough, and what a clock that never runs back gives. */
  predicate AfterPrunes(ts: seq<int>, cooldown: Int64) {
    forall m, j :: 0 <= m < j < |ts| && PrunesAt(ts, m, cooldown) ==> ts[m] <= ts[j]
  }

  lemma AfterPrunesIsHarmless(ts: seq<int>, cooldown: Int64)
    ensures AfterPrunes(ts, cooldown) ==> Harmless(ts, cooldown)
    ensures (forall m, j :: 0 <= m < j < |ts| ==> ts[m] <= ts[j]) ==> AfterPrunes(ts, cooldown)
  {
    hide PrunesAt;
  }
}
