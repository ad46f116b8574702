/**
 Which events the rate limiter of internal/eventbus/filter.go lets through, said of the events alone:
 one is refused exactly when the last one let through for its key is less than a cooldown ago.
 */
module LimiterAnswers {
  import opened Prelude
  import opened Text
  import opened RateLimiter

  /** Among the first n events, j is the last one let through for key. */
  ghost predicate LastLetThrough(es: seq<Event>, oks: seq<bool>, key: string, n: nat, j: nat)
    requires n <= |es| && n <= |oks|
  {
    j < n && es[j].key == key && oks[j] && forall k :: j < k < n && es[k].key == key ==> !oks[k]
  }

  /** The limiter that forgets nothing remembers, for each key, when that was. */
  ghost predicate Remembers(m: map<string, int>, es: seq<Event>, oks: seq<bool>, key: string, n: nat)
    requires n <= |es| && n <= |oks|
  {
    && (key in m <==> exists j: nat :: LastLetThrough(es, oks, key, n, j))
    && (forall j: nat :: LastLetThrough(es, oks, key, n, j) ==> m[key] == es[j].now)
  }

  lemma NextAnswer(m: map<string, int>, es: seq<Event>, oks: seq<bool>, key: string, n: nat, cooldown: Int64)
    requires n < |es| && n < |oks| && Remembers(m, es, oks, key, n)
    requires oks[n] == FullStep(m, es[n], cooldown).1
    ensures Remembers(FullStep(m, es[n], cooldown).0, es, oks, key, n + 1)
  {
    hide Since;
    if es[n].key == key && oks[n] {
      assert LastLetThrough(es, oks, key, n + 1, n);
    } else {
      var r := FullStep(m, es[n], cooldown).0;
      assert (key in r <==> key in m) && (key in m ==> r[key] == m[key]);
      if key in m {
        var j: nat :| LastLetThrough(es, oks, key, n, j);
        OlderStays(es, oks, key, n, j);
        assert LastLetThrough(es, oks, key, n + 1, j);
      }
      forall j: nat | LastLetThrough(es, oks, key, n + 1, j)
        ensures key in m && m[key] == es[j].now
      {
        OlderStays(es, oks, key, n, j);
      }
    }
  }

  lemma OlderStays(es: seq<Event>, oks: seq<bool>, key: string, n: nat, j: nat)
    requires n < |es| && n < |oks| && !(es[n].key == key && oks[n])
    ensures LastLetThrough(es, oks, key, n + 1, j) <==> LastLetThrough(es, oks, key, n, j)
  {
  }

  lemma {:induction false} RunRemembers(es: seq<Event>, cooldown: Int64, key: string, n: nat)
    requires n <= |es| && |FullRun(es, cooldown).1| == |es|
    requires forall k :: 0 <= k <= |es| ==> FullRun(es[..k], cooldown).1 == FullRun(es, cooldown).1[..k]
    ensures Remembers(FullRun(es[..n], cooldown).0, es, FullRun(es, cooldown).1, key, n)
  {
    hide FullStep, Remembers, FullRun;
    var oks := FullRun(es, cooldown).1;
    if n == 0 {
      NothingRun(es, cooldown, key);
    } else {
      RunRemembers(es, cooldown, key, n - 1);
      LastStep(es, cooldown, n - 1);
      NextAnswer(FullRun(es[..n - 1], cooldown).0, es, oks, key, n - 1, cooldown);
    }
  }

  lemma NothingRun(es: seq<Event>, cooldown: Int64, key: string)
    requires |FullRun(es, cooldown).1| == |es|
    ensures Remembers(FullRun(es[..0], cooldown).0, es, FullRun(es, cooldown).1, key, 0)
  {
    hide FullStep;
    assert es[..0] == [];
  }

  lemma LastStep(es: seq<Event>, cooldown: Int64, n: nat)
    requires n < |es| && |FullRun(es, cooldown).1| == |es|
    requires forall k :: 0 <= k <= |es| ==> FullRun(es[..k], cooldown).1 == FullRun(es, cooldown).1[..k]
    ensures FullRun(es[..n + 1], cooldown).0 == FullStep(FullRun(es[..n], cooldown).0, es[n], cooldown).0
    ensures FullRun(es, cooldown).1[n] == FullStep(FullRun(es[..n], cooldown).0, es[n], cooldown).1
  {
    hide FullStep, FullRun;
    var oks := FullRun(es, cooldown).1;
    assert oks[..n + 1][n] == oks[n] && |oks[..n]| == n;
    assert FullRun(es[..n + 1], cooldown).1 == oks[..n + 1] && FullRun(es[..n], cooldown).1 == oks[..n];
    OneStep(es, cooldown, n);
  }

  lemma OneStep(es: seq<Event>, cooldown: Int64, n: nat)
    requires n < |es|
    ensures var before, step := FullRun(es[..n], cooldown), FullStep(FullRun(es[..n], cooldown).0, es[n], cooldown);
      FullRun(es[..n + 1], cooldown) == (step.0, before.1 + [step.1])
  {
    hide FullStep;
    assert es[..n + 1][..n] == es[..n];
  }

  lemma {:induction false} AnswersArePrefixes(es: seq<Event>, cooldown: Int64)
    ensures |FullRun(es, cooldown).1| == |es|
    ensures forall k :: 0 <= k <= |es| ==> FullRun(es[..k], cooldown).1 == FullRun(es, cooldown).1[..k]
  {
    hide FullStep;
    if es != [] {
      var n := |es| - 1;
      AnswersArePrefixes(es[..n], cooldown);
      forall k | 0 <= k <= |es|
        ensures FullRun(es[..k], cooldown).1 == FullRun(es, cooldown).1[..k]
      {
        if k <= n {
          assert es[..n][..k] == es[..k];
        } else {
          assert es[..k] == es;
        }
      }
    } else {
      assert es[..0] == [];
    }
  }

  /** An event passes exactly when the last one let through for its key, if any, is a cooldown ago or more. */
  lemma PassesExactly(es: seq<Event>, cooldown: Int64, i: nat)
    requires i < |es|
    ensures var oks := FullRun(es, cooldown).1;
      && |oks| == |es|
      && (oks[i] <==>
            forall j: nat :: LastLetThrough(es, oks, es[i].key, i, j) ==> Sub(es[i].now, es[j].now) >= cooldown)
  {
    hide FullRun, Sub;
    AnswersArePrefixes(es, cooldown);
    RunRemembers(es, cooldown, es[i].key, i);
    LastStep(es, cooldown, i);
    if j: nat :| LastLetThrough(es, FullRun(es, cooldown).1, es[i].key, i, j) {
      OneLast(es, FullRun(es, cooldown).1, es[i].key, i, j);
    }
  }

  lemma OneLast(es: seq<Event>, oks: seq<bool>, key: string, n: nat, j: nat)
    requires n <= |es| && n <= |oks| && LastLetThrough(es, oks, key, n, j)
    ensures forall k: nat :: LastLetThrough(es, oks, key, n, k) ==> k == j
  {
  }

  /** So it is for the limiter that prunes, while the clock does not run backwards. */
  lemma LimiterPassesExactly(es: seq<Event>, cooldown: Int64, i: nat)
    requires i < |es| && ClockForward(es)
    ensures var oks := Run(es, cooldown).1;
      && |oks| == |es|
      && (oks[i] <==>
            forall j: nat :: LastLetThrough(es, oks, es[i].key, i, j) ==> Sub(es[i].now, es[j].now) >= cooldown)
  {
    hide FullRun, Run, Sub;
    PruningIsInvisible(es, cooldown);
    PassesExactly(es, cooldown, i);
  }
}
