/**
 What a traffic record of GetTraffic (internal/xray/api.go) is worth.  A record keeps the last
 delta per direction instead of their sum: exactly when that loses nothing, and an input where it does.
 */
module StatsRecords {
  import opened Prelude
  import opened Text
  import opened StatsDeltas

  /** The name under which the core counts a handler's traffic. */
  function StatName(inbound: bool, tag: string, down: bool): string {
    (if inbound then "inbound>>>" else "outbound>>>") + tag
      + (if down then ">>>traffic>>>downlink" else ">>>traffic>>>uplink")
  }

  lemma Regroup(a: string, b: string, c: string)
    ensures a + b + c == a + (b + c)
  {
  }

  /** Such a name is read back as that handler, tag and direction. */
  lemma StatNameIsRead(inbound: bool, tag: string, down: bool)
    requires tag != "" && '>' !in tag
    ensures Classify(StatName(inbound, tag, down)) == Handler(inbound, tag, down)
  {
    hide NameAndDirection, HandlerHere, Classify;
    var tail := if down then ">>>traffic>>>downlink" else ">>>traffic>>>uplink";
    DirectionIsRead(tag, tail, down);
    HereIsRead(inbound, tag + tail, tag, down);
    Regroup(if inbound then "inbound>>>" else "outbound>>>", tag, tail);
    FoundAtStart(StatName(inbound, tag, down), Handler(inbound, tag, down));
  }

  lemma HereIsRead(inbound: bool, rest: string, tag: string, down: bool)
    requires NameAndDirection(rest) == Some((tag, down))
    ensures var name := (if inbound then "inbound>>>" else "outbound>>>") + rest;
      name != "" && HandlerHere(name) == Some(Handler(inbound, tag, down))
  {
    hide NameAndDirection, HasPrefix;
    HeadIsRead(inbound, if inbound then "inbound>>>" else "outbound>>>", rest);
  }

  lemma FoundAtStart(s: string, k: Kind)
    requires s != "" && HandlerHere(s) == Some(k)
    ensures Classify(s) == k
  {
    hide HandlerHere, FindClient;
  }

  lemma HeadIsRead(inbound: bool, head: string, rest: string)
    requires head == if inbound then "inbound>>>" else "outbound>>>"
    ensures HasPrefix(head + rest, head) && (head + rest)[|head|..] == rest
    ensures !inbound ==> !HasPrefix(head + rest, "inbound>>>")
  {
    var name := head + rest;
    assert name[..|head|] == head;
    if HasPrefix(name, "inbound>>>") {
      assert name[..10][0] == name[0] == head[0];
    }
  }

  lemma DirectionIsRead(tag: string, tail: string, down: bool)
    requires tag != "" && '>' !in tag
    requires tail == if down then ">>>traffic>>>downlink" else ">>>traffic>>>uplink"
    ensures NameAndDirection(tag + tail) == Some((tag, down))
  {
    hide IndexOf;
    var s := tag + tail;
    assert s[..|tag|] == tag && s[|tag|..] == tail && s[|tag|] == '>';
    IndexAt(s, '>', |tag|);
    assert !down ==> !HasPrefix(tail, ">>>traffic>>>downlink");
  }

  predicate OfTag(name: string, tag: string) { Classify(name).Handler? && Classify(name).tag == tag }

  /** A record is marked inbound or outbound after the first delta of its tag. */
  lemma {:induction false} KindIsFirst(ds: seq<Delta>, tag: string, i: nat)
    requires tag != "api" && i < |ds| && OfTag(ds[i].name, tag)
    requires forall j :: 0 <= j < i ==> !OfTag(ds[j].name, tag)
    ensures tag in TagTraffic(ds) && TagTraffic(ds)[tag].inbound == Classify(ds[i].name).inbound
  {
    hide Classify;
    var n := |ds| - 1;
    if i < n {
      KindIsFirst(ds[..n], tag, i);
    } else {
      LastDeltaWins(ds[..n], tag);
    }
  }

  // ---- sums and records ------------------------------------------------------------------

  predicate For(name: string, tag: string, down: bool) {
    var k := Classify(name);
    k.Handler? && k.tag == tag && k.down == down
  }

  /** All that was counted for a tag and direction. */
  function Total(ds: seq<Delta>, tag: string, down: bool): int {
    if ds == [] then 0
    else
      var d := ds[|ds| - 1];
      Total(ds[..|ds| - 1], tag, down) + (if For(d.name, tag, down) then d.value else 0)
  }

  /** What the tag's record says. */
  function Recorded(ds: seq<Delta>, tag: string, down: bool): int {
    var m := TagTraffic(ds);
    if tag !in m then 0 else if down then m[tag].down else m[tag].up
  }

  lemma RecordedIsLast(ds: seq<Delta>, tag: string, down: bool)
    requires tag != "api"
    ensures Recorded(ds, tag, down) == LastFor(ds, tag, down)
  {
    hide TagTraffic, LastFor, Named;
    LastDeltaWins(ds, tag);
  }

  ghost predicate NonNegative(ds: seq<Delta>) {
    forall i :: 0 <= i < |ds| ==> ds[i].value >= 0
  }

  lemma {:induction false} DeltasAreNonNegative(last: map<string, Int64>, stats: seq<Stat>)
    ensures NonNegative(Deltas(last, stats))
  {
    if stats != [] {
      DeltasAreNonNegative(last, stats[..|stats| - 1]);
    }
  }

  ghost predicate AllZero(ds: seq<Delta>, tag: string, down: bool) {
    forall i :: 0 <= i < |ds| && For(ds[i].name, tag, down) ==> ds[i].value == 0
  }

  /** Every delta of the tag and direction but the last is zero. */
  ghost predicate OnlyLastCounts(ds: seq<Delta>, tag: string, down: bool) {
    forall i, j :: 0 <= i < j < |ds| && For(ds[i].name, tag, down) && For(ds[j].name, tag, down) ==> ds[i].value == 0
  }

  lemma {:induction false} ZeroTotal(ds: seq<Delta>, tag: string, down: bool)
    requires NonNegative(ds)
    ensures Total(ds, tag, down) >= 0
    ensures Total(ds, tag, down) == 0 <==> AllZero(ds, tag, down)
  {
    hide For;
    if ds != [] {
      var n := |ds| - 1;
      ZeroTotal(ds[..n], tag, down);
      assert forall i :: 0 <= i < n ==> ds[..n][i] == ds[i];
    }
  }

  lemma {:induction false} LastIsTotalExactly(ds: seq<Delta>, tag: string, down: bool)
    requires NonNegative(ds)
    ensures Total(ds, tag, down) == LastFor(ds, tag, down) <==> OnlyLastCounts(ds, tag, down)
  {
    hide Classify;
    if ds != [] {
      var n := |ds| - 1;
      assert forall i :: 0 <= i < n ==> ds[..n][i] == ds[i];
      if For(ds[n].name, tag, down) {
        ZeroTotal(ds[..n], tag, down);
      } else {
        LastIsTotalExactly(ds[..n], tag, down);
      }
    }
  }

  /** For the deltas of an answer, the record is the sum exactly when every delta but the last of its kind is zero. */
  lemma RecordIsTotalExactly(last: map<string, Int64>, stats: seq<Stat>, tag: string, down: bool)
    requires tag != "api"
    ensures var ds := Deltas(last, stats);
      Recorded(ds, tag, down) == Total(ds, tag, down) <==> OnlyLastCounts(ds, tag, down)
  {
    hide Recorded, Total, LastFor, OnlyLastCounts;
    DeltasAreNonNegative(last, stats);
    LastIsTotalExactly(Deltas(last, stats), tag, down);
    RecordedIsLast(Deltas(last, stats), tag, down);
  }

  // ---- which names can lose anything ---------------------------------------------------------

  /** The names an answer lists, in order. */
  function NamesIn(stats: seq<Stat>): seq<string> {
    seq(|stats|, i requires 0 <= i < |stats| => stats[i].name)
  }

  /** No two of the names count for one tag and direction, the api tag aside. */
  ghost predicate Separate(names: seq<string>) {
    forall i, j, tag, down ::
      0 <= i < j < |names| && For(names[i], tag, down) && For(names[j], tag, down) ==> tag == "api"
  }

  lemma {:induction false} NothingNamed(last: map<string, Int64>, stats: seq<Stat>, tag: string, down: bool)
    requires forall i :: 0 <= i < |stats| ==> !For(stats[i].name, tag, down)
    ensures forall i :: 0 <= i < |Deltas(last, stats)| ==> !For(Deltas(last, stats)[i].name, tag, down)
  {
    hide For, Baseline;
    if stats != [] {
      NothingNamed(last, stats[..|stats| - 1], tag, down);
    }
  }

  /** One more delta, of another kind or the first of its kind, or none. */
  lemma OneMore(ds: seq<Delta>, more: seq<Delta>, name: string, tag: string, down: bool)
    requires OnlyLastCounts(ds, tag, down)
    requires |more| <= 1 && forall d :: d in more ==> d.name == name
    requires For(name, tag, down) ==> forall i :: 0 <= i < |ds| ==> !For(ds[i].name, tag, down)
    ensures OnlyLastCounts(ds + more, tag, down)
  {
    hide For;
    var all := ds + more;
    assert forall k :: 0 <= k < |ds| ==> all[k] == ds[k];
    assert forall k :: |ds| <= k < |all| ==> all[k] in more;
  }

  lemma SeparateFront(stats: seq<Stat>, tag: string, down: bool)
    requires stats != [] && Separate(NamesIn(stats)) && tag != "api"
    ensures Separate(NamesIn(stats[..|stats| - 1]))
    ensures var front := stats[..|stats| - 1];
      For(stats[|stats| - 1].name, tag, down) ==> forall i :: 0 <= i < |front| ==> !For(front[i].name, tag, down)
  {
    hide For;
    var n := |stats| - 1;
    var names, fewer := NamesIn(stats), NamesIn(stats[..n]);
    assert forall i :: 0 <= i < n ==> fewer[i] == names[i] == stats[..n][i].name;
    assert names[n] == stats[n].name;
  }

  lemma {:induction false} SeparateLosesNothing(last: map<string, Int64>, stats: seq<Stat>, tag: string, down: bool)
    requires Separate(NamesIn(stats)) && tag != "api"
    ensures OnlyLastCounts(Deltas(last, stats), tag, down)
  {
    hide For, Baseline, OnlyLastCounts, Separate;
    if stats != [] {
      var n := |stats| - 1;
      SeparateFront(stats, tag, down);
      SeparateLosesNothing(last, stats[..n], tag, down);
      if For(stats[n].name, tag, down) {
        NothingNamed(last, stats[..n], tag, down);
      }
      OneMore(Deltas(last, stats[..n]), DeltaOf(Baseline(last, stats[..n]), stats[n]), stats[n].name, tag, down);
    } else {
      NoDeltas(last, tag, down);
    }
  }

  lemma NoDeltas(last: map<string, Int64>, tag: string, down: bool)
    ensures OnlyLastCounts(Deltas(last, []), tag, down)
  {
  }

  /** An answer in which the counters grow at positions i and j. */
  function Growing(names: seq<string>, i: nat, j: nat): (stats: seq<Stat>)
    ensures NamesIn(stats) == names
  {
    seq(|names|, k requires 0 <= k < |names| => Stat(names[k], if k < i then 0 else if k < j then 1 else 2))
  }

  function Zeros(names: seq<string>): map<string, Int64> {
    map n | n in names :: 0
  }

  lemma {:induction false} GrowingDeltas(names: seq<string>, i: nat, j: nat, n: nat)
    requires n <= |names| && i < j
    ensures var ds := Deltas(Zeros(names), Growing(names, i, j)[..n]);
      |ds| == n && (forall k :: 0 <= k < n ==> ds[k].name == names[k]) && (i < n ==> ds[i].value == 1)
    ensures var b := Baseline(Zeros(names), Growing(names, i, j)[..n]);
      forall x :: x in names ==> x in b && 0 <= b[x] <= (if n <= i then 0 else if n <= j then 1 else 2)
  {
    hide Deltas, Baseline, DeltaOf, Growing;
    var stats, zeros := Growing(names, i, j), Zeros(names);
    if n > 0 {
      var k := n - 1;
      GrowingDeltas(names, i, j, k);
      GrowingAt(names, i, j, k);
      NextStat(zeros, stats, k);
      DeltaWhen(Baseline(zeros, stats[..k]), stats[k]);
    } else {
      assert stats[..0] == [];
      StartEmpty(zeros);
    }
  }

  lemma GrowingAt(names: seq<string>, i: nat, j: nat, k: nat)
    requires k < |names|
    ensures |Growing(names, i, j)| == |names|
    ensures Growing(names, i, j)[k] == Stat(names[k], if k < i then 0 else if k < j then 1 else 2)
  {
  }

  /** Names that are not separate lose traffic in some answer. */
  lemma CollisionLoses(names: seq<string>, i: nat, j: nat, tag: string, down: bool)
    requires i < j < |names|
    requires For(names[i], tag, down) && For(names[j], tag, down) && tag != "api"
    ensures var ds := Deltas(Zeros(names), Growing(names, i, j)); Recorded(ds, tag, down) != Total(ds, tag, down)
  {
    hide For, Recorded, Total;
    var stats := Growing(names, i, j);
    var ds := Deltas(Zeros(names), stats);
    GrowingDeltas(names, i, j, |names|);
    assert stats[..|names|] == stats;
    RecordIsTotalExactly(Zeros(names), stats, tag, down);
    assert For(ds[i].name, tag, down) && For(ds[j].name, tag, down) && ds[i].value != 0;
  }

  /** No answer with these names loses traffic of a tag other than api. */
  ghost predicate NothingLost(names: seq<string>) {
    forall last, stats, tag, down :: NamesIn(stats) == names && tag != "api" ==>
      Recorded(Deltas(last, stats), tag, down) == Total(Deltas(last, stats), tag, down)
  }

  /** Over all values, nothing is lost exactly when no two names count for one tag and direction. */
  lemma NothingLostExactly(names: seq<string>)
    ensures NothingLost(names) <==> Separate(names)
  {
    hide For, Recorded, Total, OnlyLastCounts;
    if Separate(names) {
      forall last, stats, tag, down | NamesIn(stats) == names && tag != "api"
        ensures Recorded(Deltas(last, stats), tag, down) == Total(Deltas(last, stats), tag, down)
      {
        SeparateLosesNothing(last, stats, tag, down);
        RecordIsTotalExactly(last, stats, tag, down);
      }
    } else {
      var i, j, tag, down :|
        0 <= i < j < |names| && For(names[i], tag, down) && For(names[j], tag, down) && tag != "api";
      CollisionLoses(names, i, j, tag, down);
      assert NamesIn(Growing(names, i, j)) == names;
    }
  }

  /** The input that shows it: an inbound and an outbound of one tag, both counting in one poll. */
  method SharedTagLoses(tag: string, a: Int64, b: Int64) returns (up: int)
    requires tag != "" && '>' !in tag && tag != "api" && 0 < a && 0 <= b
    ensures up == b
  {
    hide Classify, DeltaOf, Deltas, Baseline, TagTraffic, AfterPoll, LastFor;
    var first, second := StatName(true, tag, false), StatName(false, tag, false);
    var reader := new Reader();
    var before, _ := reader.GetTraffic([Stat(first, 0), Stat(second, 0)]);
    var tags, _ := reader.GetTraffic([Stat(first, a), Stat(second, b)]);
    TwoHandlers(tag, a, b);
    up := tags[tag].up;
  }

  lemma TwoHandlers(tag: string, a: Int64, b: Int64)
    requires tag != "" && '>' !in tag && tag != "api" && 0 < a && 0 <= b
    ensures var first, second := StatName(true, tag, false), StatName(false, tag, false);
      var last := AfterPoll(map[], [Stat(first, 0), Stat(second, 0)]);
      var ds := Deltas(last, [Stat(first, a), Stat(second, b)]);
      && ds == [Delta(first, a), Delta(second, b)]
      && tag in TagTraffic(ds) && TagTraffic(ds)[tag] == StatsDeltas.Traffic(true, b, 0)
      && Total(ds, tag, false) == a + b
  {
    hide Classify, StatName, Total, TagTraffic, Deltas, Baseline;
    var first, second := StatName(true, tag, false), StatName(false, tag, false);
    StatNameIsRead(true, tag, false);
    StatNameIsRead(false, tag, false);
    TwoStats(map[], Stat(first, 0), Stat(second, 0));
    assert AfterPoll(map[], [Stat(first, 0), Stat(second, 0)]) == map[first := 0, second := 0];
    TwoStats(map[first := 0, second := 0], Stat(first, a), Stat(second, b));
    TwoDeltas(Delta(first, a), Delta(second, b), tag);
  }

  lemma TwoDeltas(x: Delta, y: Delta, tag: string)
    requires tag != "api"
    requires Classify(x.name) == Handler(true, tag, false) && Classify(y.name) == Handler(false, tag, false)
    ensures tag in TagTraffic([x, y]) && TagTraffic([x, y])[tag] == StatsDeltas.Traffic(true, y.value, 0)
    ensures Total([x, y], tag, false) == x.value + y.value
  {
    hide Classify;
    assert [x, y][..1] == [x] && [x][..0] == [];
    assert Total([x], tag, false) == x.value;
    assert TagTraffic([x])[tag] == StatsDeltas.Traffic(true, x.value, 0);
  }

  lemma TwoStats(last: map<string, Int64>, s: Stat, t: Stat)
    ensures Baseline(last, [s, t]) == last[s.name := s.value][t.name := t.value]
    ensures Deltas(last, [s, t]) == DeltaOf(last, s) + DeltaOf(last[s.name := s.value], t)
  {
    hide DeltaOf;
    assert [s, t][..1] == [s] && [s][..0] == [];
    assert Baseline(last, [s]) == last[s.name := s.value];
    assert Deltas(last, [s]) == DeltaOf(last, s);
  }
}
