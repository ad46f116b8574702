/**
 The stats reader (GetTraffic, internal/xray/api.go): it turns the core's running counters into
 deltas against a baseline map that is pruned now and then.
 */
module StatsDeltas {
  import opened Prelude
  import opened Text

  datatype Stat = Stat(name: string, value: Int64)

  datatype Delta = Delta(name: string, value: int)

  // ---- stat names -------------------------------------------------------------------

  datatype Kind = Handler(inbound: bool, tag: string, down: bool) | Client(email: string, down: bool) | Other

  /** Where the leading characters other than '>' end. */
  function Plain(s: string): (n: nat)
    ensures n <= |s|
  {
    IndexOf(s, '>')
  }

  /** The part "([^>]+)>>>traffic>>>(downlink|uplink)" of both patterns. */
  function NameAndDirection(s: string): Option<(string, bool)> {
    var n := Plain(s);
    var rest := s[n..];
    if n == 0 then None
    else if HasPrefix(rest, ">>>traffic>>>downlink") then Some((s[..n], true))
    else if HasPrefix(rest, ">>>traffic>>>uplink") then Some((s[..n], false))
    else None
  }

  function HandlerHere(s: string): Option<Kind> {
    if HasPrefix(s, "inbound>>>") then
      match NameAndDirection(s[10..])
      case Some((tag, down)) => Some(Handler(true, tag, down))
      case None => None
    else if HasPrefix(s, "outbound>>>") then
      match NameAndDirection(s[11..])
      case Some((tag, down)) => Some(Handler(false, tag, down))
      case None => None
    else None
  }

  function ClientHere(s: string): Option<Kind> {
    if HasPrefix(s, "user>>>") then
      match NameAndDirection(s[7..])
      case Some((email, down)) => Some(Client(email, down))
      case None => None
    else None
  }

  /** The leftmost match of a pattern. */
  function FindHandler(s: string): Option<Kind>
    decreases |s|
  {
    if s == "" then None
    else if HandlerHere(s).Some? then HandlerHere(s)
    else FindHandler(s[1..])
  }

  function FindClient(s: string): Option<Kind>
    decreases |s|
  {
    if s == "" then None
    else if ClientHere(s).Some? then ClientHere(s)
    else FindClient(s[1..])
  }

  function Classify(name: string): Kind {
    if FindHandler(name).Some? then FindHandler(name).value
    else if FindClient(name).Some? then FindClient(name).value
    else Other
  }

  // ---- one answer of the core -----------------------------------------------------------

  /** The delta of one stat: none the first time, none after the counter went back. */
  function DeltaOf(last: map<string, Int64>, s: Stat): seq<Delta> {
    if s.name in last && s.value >= last[s.name] then [Delta(s.name, s.value - last[s.name])] else []
  }

  function Baseline(last: map<string, Int64>, stats: seq<Stat>): map<string, Int64> {
    if stats == [] then last
    else
      var s := stats[|stats| - 1];
      Baseline(last, stats[..|stats| - 1])[s.name := s.value]
  }

  function Deltas(last: map<string, Int64>, stats: seq<Stat>): seq<Delta> {
    if stats == [] then []
    else
      var front := stats[..|stats| - 1];
      Deltas(last, front) + DeltaOf(Baseline(last, front), stats[|stats| - 1])
  }

  function NamesOf(stats: seq<Stat>): set<string> {
    set i | 0 <= i < |stats| :: stats[i].name
  }

  /** Baselines of vanished stats go once the map is more than twice the live set. */
  function Pruned(m: map<string, Int64>, stats: seq<Stat>): map<string, Int64> {
    if |stats| > 0 && |m| > 2 * |stats| then map n | n in m && n in NamesOf(stats) :: m[n] else m
  }

  function AfterPoll(last: map<string, Int64>, stats: seq<Stat>): map<string, Int64> {
    Pruned(Baseline(last, stats), stats)
  }

  datatype Traffic = Traffic(inbound: bool, up: int, down: int)

  function AddTraffic(m: map<string, Traffic>, k: Kind, value: int): map<string, Traffic>
    requires k.Handler?
  {
    if k.tag == "api" then m
    else
      var t := if k.tag in m then m[k.tag] else Traffic(k.inbound, 0, 0);
      m[k.tag := if k.down then t.(down := value) else t.(up := value)]
  }

  datatype ClientTraffic = ClientTraffic(up: int, down: int)

  function AddClient(m: map<string, ClientTraffic>, k: Kind, value: int): map<string, ClientTraffic>
    requires k.Client?
  {
    var t := if k.email in m then m[k.email] else ClientTraffic(0, 0);
    m[k.email := if k.down then t.(down := value) else t.(up := value)]
  }

  function TagTraffic(ds: seq<Delta>): map<string, Traffic> {
    if ds == [] then map[]
    else
      var d, before := ds[|ds| - 1], TagTraffic(ds[..|ds| - 1]);
      if Classify(d.name).Handler? then AddTraffic(before, Classify(d.name), d.value) else before
  }

  function EmailTraffic(ds: seq<Delta>): map<string, ClientTraffic> {
    if ds == [] then map[]
    else
      var d, before := ds[|ds| - 1], EmailTraffic(ds[..|ds| - 1]);
      if Classify(d.name).Client? then AddClient(before, Classify(d.name), d.value) else before
  }

  class Reader {
    var statsLastValues: map<string, Int64>

    constructor ()
      ensures statsLastValues == map[]
    {
      statsLastValues := map[];
    }

    method GetTraffic(stats: seq<Stat>) returns (tags: map<string, Traffic>, emails: map<string, ClientTraffic>)
      modifies this
      ensures statsLastValues == AfterPoll(old(statsLastValues), stats)
      ensures tags == TagTraffic(Deltas(old(statsLastValues), stats))
      ensures emails == EmailTraffic(Deltas(old(statsLastValues), stats))
    {
      hide Classify, AddTraffic, AddClient, Deltas, Baseline, TagTraffic, EmailTraffic, DeltaOf, AfterPoll;
      ghost var before := statsLastValues;
      StartEmpty(before);
      tags, emails := map[], map[];
      for i := 0 to |stats|
        invariant statsLastValues == Baseline(before, stats[..i])
        invariant tags == TagTraffic(Deltas(before, stats[..i]))
        invariant emails == EmailTraffic(Deltas(before, stats[..i]))
      {
        var stat := stats[i];
        NextStat(before, stats, i);
        var lastValue := if stat.name in statsLastValues then Some(statsLastValues[stat.name]) else None;
        DeltaWhen(statsLastValues, stat);
        statsLastValues := statsLastValues[stat.name := stat.value];
        if lastValue.None? || stat.value < lastValue.value {
          continue;
        }
        var value := stat.value - lastValue.value;
        OneMoreDelta(Deltas(before, stats[..i]), Delta(stat.name, value));
        var kind := Classify(stat.name);
        if kind.Handler? {
          tags := AddTraffic(tags, kind, value);
        } else if kind.Client? {
          emails := AddClient(emails, kind, value);
        }
      }
      assert stats[..|stats|] == stats;
      PruneBaseline(before, stats);
    }

    method PruneBaseline(ghost before: map<string, Int64>, stats: seq<Stat>)
      requires statsLastValues == Baseline(before, stats)
      modifies this
      ensures statsLastValues == AfterPoll(before, stats)
    {
      var n := |stats|;
      if n > 0 && |statsLastValues| > 2 * n {
        var pruned: map<string, Int64> := map[];
        for i := 0 to n
          invariant pruned.Keys == NamesOf(stats[..i])
          invariant statsLastValues == Baseline(before, stats)
          invariant forall k :: k in pruned ==> k in statsLastValues && pruned[k] == statsLastValues[k]
        {
          BaselineHas(before, stats, i);
          NamesExtend(stats, i);
          pruned := pruned[stats[i].name := statsLastValues[stats[i].name]];
        }
        assert stats[..n] == stats;
        statsLastValues := pruned;
        assert pruned == Pruned(Baseline(before, stats), stats);
      }
    }
  }

  lemma StartEmpty(last: map<string, Int64>)
    ensures Baseline(last, []) == last && Deltas(last, []) == [] && TagTraffic([]) == map[] && EmailTraffic([]) == map[]
  {
  }

  lemma NextStat(last: map<string, Int64>, stats: seq<Stat>, i: nat)
    requires i < |stats|
    ensures Baseline(last, stats[..i+1]) == Baseline(last, stats[..i])[stats[i].name := stats[i].value]
    ensures Deltas(last, stats[..i+1]) == Deltas(last, stats[..i]) + DeltaOf(Baseline(last, stats[..i]), stats[i])
  {
    hide DeltaOf;
    assert stats[..i+1][..i] == stats[..i];
  }

  lemma DeltaWhen(last: map<string, Int64>, s: Stat)
    ensures DeltaOf(last, s)
      == if s.name in last && s.value >= last[s.name] then [Delta(s.name, s.value - last[s.name])] else []
    ensures DeltaOf(last, s) == [] ==> forall ds: seq<Delta> :: ds + DeltaOf(last, s) == ds
  {
  }

  lemma OneMoreDelta(ds: seq<Delta>, d: Delta)
    ensures TagTraffic(ds + [d])
      == if Classify(d.name).Handler? then AddTraffic(TagTraffic(ds), Classify(d.name), d.value) else TagTraffic(ds)
    ensures EmailTraffic(ds + [d])
      == if Classify(d.name).Client? then AddClient(EmailTraffic(ds), Classify(d.name), d.value) else EmailTraffic(ds)
  {
    hide Classify, AddTraffic, AddClient;
    assert (ds + [d])[..|ds + [d]| - 1] == ds;
  }

  lemma NamesExtend(stats: seq<Stat>, i: nat)
    requires i < |stats|
    ensures NamesOf(stats[..i+1]) == NamesOf(stats[..i]) + {stats[i].name}
  {
    var front, more := stats[..i], stats[..i+1];
    forall n
      ensures n in NamesOf(more) <==> n in NamesOf(front) + {stats[i].name}
    {
      if n in NamesOf(front) {
        var k :| 0 <= k < i && front[k].name == n;
        assert more[k].name == n;
      }
      if n == stats[i].name {
        assert more[i].name == n;
      }
      if n in NamesOf(more) {
        var k :| 0 <= k < i + 1 && more[k].name == n;
        assert k < i ==> front[k].name == n;
      }
    }
  }

  lemma {:induction false} BaselineHas(last: map<string, Int64>, stats: seq<Stat>, i: nat)
    requires i < |stats|
    ensures stats[i].name in Baseline(last, stats)
  {
    var n := |stats| - 1;
    if i < n {
      BaselineHas(last, stats[..n], i);
      assert stats[..n][i] == stats[i];
    }
  }

  // ---- conservation -------------------------------------------------------------------

  /** What the reader sees over time: answers of the core, and core restarts, which clear the baselines. */
  datatype Poll = Answer(stats: seq<Stat>) | Restart

  function Run(polls: seq<Poll>): map<string, Int64> {
    if polls == [] then map[]
    else
      match polls[|polls| - 1]
      case Answer(stats) => AfterPoll(Run(polls[..|polls| - 1]), stats)
      case Restart => map[]
  }

  function SumDeltas(ds: seq<Delta>, name: string): int {
    if ds == [] then 0
    else SumDeltas(ds[..|ds| - 1], name) + (if ds[|ds| - 1].name == name then ds[|ds| - 1].value else 0)
  }

  /** All deltas ever produced for one stat. */
  function Reported(polls: seq<Poll>, name: string): int {
    if polls == [] then 0
    else
      var front := polls[..|polls| - 1];
      Reported(front, name)
        + (match polls[|polls| - 1]
           case Answer(stats) => SumDeltas(Deltas(Run(front), stats), name)
           case Restart => 0)
  }

  /** The values shown for one stat within an answer, in order. */
  function Shown(stats: seq<Stat>, name: string): seq<Int64> {
    if stats == [] then []
    else
      var s := stats[|stats| - 1];
      Shown(stats[..|stats| - 1], name) + (if s.name == name then [s.value] else [])
  }

  function AllShown(polls: seq<Poll>, name: string): seq<Int64> {
    if polls == [] then []
    else
      AllShown(polls[..|polls| - 1], name)
        + (match polls[|polls| - 1]
           case Answer(stats) => Shown(stats, name)
           case Restart => [])
  }

  /** What a counter that starts at zero must have counted to show v after vs. */
  function Growth(vs: seq<Int64>, v: int): int {
    if vs != [] && v >= vs[|vs| - 1] then v - vs[|vs| - 1] else v
  }

  /** The least it must have counted to show these values in turn. */
  function Counted(vs: seq<Int64>): int {
    if vs == [] then 0
    else
      var front := vs[..|vs| - 1];
      Counted(front) + Growth(front, vs[|vs| - 1])
  }

  predicate NonNegative(vs: seq<Int64>) {
    forall i :: 0 <= i < |vs| ==> vs[i] >= 0
  }

  lemma {:induction false} SumConcat(a: seq<Delta>, b: seq<Delta>, name: string)
    ensures SumDeltas(a + b, name) == SumDeltas(a, name) + SumDeltas(b, name)
  {
    if b == [] {
      assert a + b == a;
    } else {
      assert (a + b)[..|a + b| - 1] == a + b[..|b| - 1];
      SumConcat(a, b[..|b| - 1], name);
    }
  }

  lemma CountedOneMore(vs: seq<Int64>, v: Int64)
    ensures Counted(vs + [v]) == Counted(vs) + Growth(vs, v)
  {
    hide Growth;
    var all := vs + [v];
    assert all[..|all| - 1] == vs;
  }

  /** The baseline of a stat, where there is one, is the last value shown. */
  predicate BaselineIsLast(last: map<string, Int64>, vs: seq<Int64>, name: string) {
    name in last ==> vs != [] && last[name] == vs[|vs| - 1]
  }

  /** One stat: its delta is at most what the counter grew by. */
  lemma StatNeverOver(base: map<string, Int64>, s: Stat, shown: seq<Int64>, name: string)
    requires BaselineIsLast(base, shown, name) && (s.name == name ==> s.value >= 0)
    ensures var now := shown + (if s.name == name then [s.value] else []);
      && BaselineIsLast(base[s.name := s.value], now, name)
      && Counted(shown) + SumDeltas(DeltaOf(base, s), name) <= Counted(now)
  {
    hide Counted, SumDeltas, DeltaOf;
    SumOne(base, s, name);
    if s.name == name {
      CountedOneMore(shown, s.value);
    } else {
      assert shown + [] == shown;
    }
  }

  lemma {:induction false} AnswerNeverOver(last: map<string, Int64>, stats: seq<Stat>, vs: seq<Int64>, name: string)
    requires BaselineIsLast(last, vs, name) && NonNegative(Shown(stats, name))
    ensures BaselineIsLast(Baseline(last, stats), vs + Shown(stats, name), name)
    ensures Counted(vs) + SumDeltas(Deltas(last, stats), name) <= Counted(vs + Shown(stats, name))
  {
    hide Counted, SumDeltas, DeltaOf, BaselineIsLast;
    if stats == [] {
      assert vs + [] == vs;
      NothingSummed(name);
    } else {
      var n := |stats| - 1;
      var front, s := stats[..n], stats[n];
      var base := Baseline(last, front);
      ShownFront(stats, name);
      AnswerNeverOver(last, front, vs, name);
      StatNeverOver(base, s, vs + Shown(front, name), name);
      SumConcat(Deltas(last, front), DeltaOf(base, s), name);
      var tail: seq<Int64> := if s.name == name then [s.value] else [];
      assert vs + Shown(stats, name) == (vs + Shown(front, name)) + tail;
    }
  }

  lemma NothingCounted()
    ensures Counted([]) == 0
  {
  }

  lemma NothingSummed(name: string)
    ensures SumDeltas([], name) == 0
  {
  }

  lemma ShownFront(stats: seq<Stat>, name: string)
    requires stats != [] && NonNegative(Shown(stats, name))
    ensures NonNegative(Shown(stats[..|stats| - 1], name))
    ensures stats[|stats| - 1].name == name ==> stats[|stats| - 1].value >= 0
  {
    var s := stats[|stats| - 1];
    if s.name == name {
      assert Shown(stats, name)[|Shown(stats, name)| - 1] == s.value;
    }
    var front := Shown(stats[..|stats| - 1], name);
    assert forall i :: 0 <= i < |front| ==> front[i] == Shown(stats, name)[i];
  }

  lemma SumOne(base: map<string, Int64>, s: Stat, name: string)
    ensures SumDeltas(DeltaOf(base, s), name)
      == if s.name == name && name in base && s.value >= base[name] then s.value - base[name] else 0
  {
    var ds := DeltaOf(base, s);
    if ds != [] {
      assert ds[..|ds| - 1] == [];
    }
  }

  /** Over any run of polls, prunings and restarts, no more is reported than was counted. */
  lemma {:induction false} NeverOverCounts(polls: seq<Poll>, name: string)
    requires NonNegative(AllShown(polls, name))
    ensures Reported(polls, name) <= Counted(AllShown(polls, name))
    ensures BaselineIsLast(Run(polls), AllShown(polls, name), name)
  {
    hide Counted, Deltas, Baseline, Shown;
    NothingCounted();
    if polls != [] {
      var n := |polls| - 1;
      var front := polls[..n];
      AllShownFront(polls, name);
      NeverOverCounts(front, name);
      match polls[n]
      case Restart => assert AllShown(polls, name) == AllShown(front, name);
      case Answer(stats) => AnswerNeverOver(Run(front), stats, AllShown(front, name), name);
    }
  }

  lemma AllShownFront(polls: seq<Poll>, name: string)
    requires polls != [] && NonNegative(AllShown(polls, name))
    ensures NonNegative(AllShown(polls[..|polls| - 1], name))
    ensures polls[|polls| - 1].Answer? ==> NonNegative(Shown(polls[|polls| - 1].stats, name))
  {
    hide Shown;
    var all, front := AllShown(polls, name), AllShown(polls[..|polls| - 1], name);
    assert forall i :: 0 <= i < |front| ==> front[i] == all[i];
    if polls[|polls| - 1].Answer? {
      var shown := Shown(polls[|polls| - 1].stats, name);
      assert forall i :: 0 <= i < |shown| ==> shown[i] == all[|front| + i];
    }
  }

  // Exactness within one run of the core.

  predicate Rising(vs: seq<Int64>) {
    forall i, j :: 0 <= i < j < |vs| ==> vs[i] <= vs[j]
  }

  /** The baseline of a stat seen before is there, and is the last value shown. */
  predicate BaselineKept(last: map<string, Int64>, vs: seq<Int64>, name: string) {
    if vs == [] then name !in last else name in last && last[name] == vs[|vs| - 1]
  }

  function Span(vs: seq<Int64>): int {
    if vs == [] then 0 else vs[|vs| - 1] as int - vs[0] as int
  }

  /** One stat of a counter that does not go back: its delta extends the span. */
  lemma StatIsExact(base: map<string, Int64>, s: Stat, shown: seq<Int64>, name: string)
    requires BaselineKept(base, shown, name)
    requires s.name == name && shown != [] ==> shown[|shown| - 1] <= s.value
    ensures var now := shown + (if s.name == name then [s.value] else []);
      && BaselineKept(base[s.name := s.value], now, name)
      && Span(shown) + SumDeltas(DeltaOf(base, s), name) == Span(now)
  {
    hide SumDeltas, DeltaOf;
    SumOne(base, s, name);
    if s.name != name {
      assert shown + [] == shown;
    }
  }

  lemma {:induction false} AnswerIsExact(last: map<string, Int64>, stats: seq<Stat>, vs: seq<Int64>, name: string)
    requires BaselineKept(last, vs, name) && Rising(vs + Shown(stats, name))
    ensures BaselineKept(Baseline(last, stats), vs + Shown(stats, name), name)
    ensures Span(vs) + SumDeltas(Deltas(last, stats), name) == Span(vs + Shown(stats, name))
  {
    hide SumDeltas, DeltaOf, BaselineKept, Span, Rising;
    if stats == [] {
      assert vs + [] == vs;
      NothingSummed(name);
    } else {
      var n := |stats| - 1;
      var front, s := stats[..n], stats[n];
      var base, shown := Baseline(last, front), vs + Shown(front, name);
      var tail: seq<Int64> := if s.name == name then [s.value] else [];
      assert vs + Shown(stats, name) == shown + tail;
      RisingFront(shown, tail, vs + Shown(stats, name));
      AnswerIsExact(last, front, vs, name);
      StatIsExact(base, s, shown, name);
      SumConcat(Deltas(last, front), DeltaOf(base, s), name);
    }
  }

  lemma RisingFront(a: seq<Int64>, b: seq<Int64>, all: seq<Int64>)
    requires all == a + b && Rising(all)
    ensures Rising(a)
    ensures a != [] && b != [] ==> a[|a| - 1] <= b[0]
  {
    assert forall i :: 0 <= i < |a| ==> a[i] == all[i];
    if a != [] && b != [] {
      assert all[|a| - 1] <= all[|a|];
    }
  }

  /** Every poll is an answer that shows the stat. */
  predicate AlwaysShown(polls: seq<Poll>, name: string) {
    forall i :: 0 <= i < |polls| ==> polls[i].Answer? && name in NamesOf(polls[i].stats)
  }

  /** A stat in every answer of one core run: its deltas add up to last minus first value. */
  lemma {:induction false} ExactWithinOneRun(polls: seq<Poll>, name: string)
    requires AlwaysShown(polls, name) && Rising(AllShown(polls, name))
    ensures Reported(polls, name) == Span(AllShown(polls, name))
    ensures BaselineKept(Run(polls), AllShown(polls, name), name)
  {
    hide Deltas, Baseline, Shown, Span, SumDeltas;
    if polls == [] {
      EmptySpan();
    } else {
      var n := |polls| - 1;
      var front, stats := polls[..n], polls[n].stats;
      RisingFront(AllShown(front, name), Shown(stats, name), AllShown(polls, name));
      ExactWithinOneRun(front, name);
      AnswerIsExact(Run(front), stats, AllShown(front, name), name);
    }
  }

  lemma EmptySpan()
    ensures Span([]) == 0
  {
  }

  // ---- pruning ---------------------------------------------------------------------------

  /** The reader without pruning. */
  function FullRun(polls: seq<Poll>): map<string, Int64> {
    if polls == [] then map[]
    else
      match polls[|polls| - 1]
      case Answer(stats) => Baseline(FullRun(polls[..|polls| - 1]), stats)
      case Restart => map[]
  }

  predicate AgreeOn(a: map<string, Int64>, b: map<string, Int64>, name: string) {
    (name in a <==> name in b) && (name in a ==> a[name] == b[name])
  }

  lemma {:induction false} SameDeltas(a: map<string, Int64>, b: map<string, Int64>, stats: seq<Stat>, name: string)
    requires AgreeOn(a, b, name)
    ensures AgreeOn(Baseline(a, stats), Baseline(b, stats), name)
    ensures SumDeltas(Deltas(a, stats), name) == SumDeltas(Deltas(b, stats), name)
  {
    if stats != [] {
      var n := |stats| - 1;
      var front, s := stats[..n], stats[n];
      SameDeltas(a, b, front, name);
      SumConcat(Deltas(a, front), DeltaOf(Baseline(a, front), s), name);
      SumConcat(Deltas(b, front), DeltaOf(Baseline(b, front), s), name);
      SumOne(Baseline(a, front), s, name);
      SumOne(Baseline(b, front), s, name);
    }
  }

  /** Every answer shows the stat; the core may restart in between. */
  predicate NeverMissing(polls: seq<Poll>, name: string) {
    forall i :: 0 <= i < |polls| && polls[i].Answer? ==> name in NamesOf(polls[i].stats)
  }

  lemma {:induction false} PruningKeepsBaseline(polls: seq<Poll>, name: string)
    requires NeverMissing(polls, name)
    ensures AgreeOn(Run(polls), FullRun(polls), name)
  {
    hide Baseline, NamesOf;
    if polls != [] {
      var n := |polls| - 1;
      PruningKeepsBaseline(polls[..n], name);
      if polls[n].Answer? {
        SameDeltas(Run(polls[..n]), FullRun(polls[..n]), polls[n].stats, name);
      }
    }
  }

  /** Pruning changes no delta of a stat that every answer shows. */
  lemma PruningIsInvisible(polls: seq<Poll>, stats: seq<Stat>, name: string)
    requires NeverMissing(polls, name)
    ensures SumDeltas(Deltas(Run(polls), stats), name) == SumDeltas(Deltas(FullRun(polls), stats), name)
  {
    PruningKeepsBaseline(polls, name);
    SameDeltas(Run(polls), FullRun(polls), stats, name);
  }

  lemma {:induction false} FewNames(stats: seq<Stat>)
    ensures |NamesOf(stats)| <= |stats|
  {
    if stats == [] {
      assert NamesOf(stats) == {};
    } else {
      var n := |stats| - 1;
      FewNames(stats[..n]);
      NamesExtend(stats, n);
      assert stats[..n+1] == stats;
    }
  }

  /** After a non-empty answer the baseline map is at most twice the live set. */
  lemma BaselineIsBounded(last: map<string, Int64>, stats: seq<Stat>)
    requires stats != []
    ensures |AfterPoll(last, stats)| <= 2 * |stats|
  {
    var m := Baseline(last, stats);
    if |m| > 2 * |stats| {
      FewNames(stats);
      var p := Pruned(m, stats);
      Smaller(p.Keys, NamesOf(stats));
    }
  }

  lemma {:induction false} Smaller(a: set<string>, b: set<string>)
    requires a <= b
    ensures |a| <= |b|
  {
    assert |b| == |b - a| + |a| by {
      assert b == (b - a) + a;
    }
  }

  /** The last position that shows the stat. */
  ghost predicate LastShownAt(stats: seq<Stat>, name: string, i: nat) {
    i < |stats| && stats[i].name == name && forall j :: i < j < |stats| ==> stats[j].name != name
  }

  /** A stat's baseline is the last value the answer shows for it. */
  lemma {:induction false} LastIsRemembered(last: map<string, Int64>, stats: seq<Stat>, name: string, i: nat)
    requires LastShownAt(stats, name, i)
    ensures name in Baseline(last, stats) && Baseline(last, stats)[name] == stats[i].value
  {
    var n := |stats| - 1;
    if i < n {
      assert stats[n].name != name;
      LastIsRemembered(last, stats[..n], name, i);
    }
  }

  /** Or the one from before, for a stat the answer does not show. */
  lemma {:induction false} OthersAreKept(last: map<string, Int64>, stats: seq<Stat>, name: string)
    requires forall j :: 0 <= j < |stats| ==> stats[j].name != name
    ensures AgreeOn(Baseline(last, stats), last, name)
  {
    if stats != [] {
      OthersAreKept(last, stats[..|stats| - 1], name);
    }
  }

  /** Pruning happens only above twice the live set, and then drops exactly what the answer does not show. */
  lemma PrunedExactly(last: map<string, Int64>, stats: seq<Stat>, name: string)
    ensures var m, r := Baseline(last, stats), AfterPoll(last, stats);
      if stats != [] && |m| > 2 * |stats| && (forall i :: 0 <= i < |stats| ==> stats[i].name != name)
      then name !in r
      else AgreeOn(r, m, name)
  {
    hide Baseline;
    if i :| 0 <= i < |stats| && stats[i].name == name {
      assert name in NamesOf(stats);
    }
  }

  // ---- from stats to tags -------------------------------------------------------------------

  /** The value of the last delta for this tag and direction; none came: 0. */
  function LastFor(ds: seq<Delta>, tag: string, down: bool): int {
    if ds == [] then 0
    else
      var d := ds[|ds| - 1];
      var k := Classify(d.name);
      if k.Handler? && k.tag == tag && k.down == down then d.value else LastFor(ds[..|ds| - 1], tag, down)
  }

  predicate Named(ds: seq<Delta>, tag: string) {
    exists i :: 0 <= i < |ds| && Classify(ds[i].name).Handler? && Classify(ds[i].name).tag == tag
  }

  /** Each tag's record holds the last delta per direction; the api tag has none. */
  lemma {:induction false} LastDeltaWins(ds: seq<Delta>, tag: string)
    ensures tag in TagTraffic(ds) <==> tag != "api" && Named(ds, tag)
    ensures tag in TagTraffic(ds) ==>
      TagTraffic(ds)[tag].up == LastFor(ds, tag, false) && TagTraffic(ds)[tag].down == LastFor(ds, tag, true)
    ensures !Named(ds, tag) ==> LastFor(ds, tag, true) == 0 && LastFor(ds, tag, false) == 0
  {
    hide Classify;
    if ds != [] {
      var n := |ds| - 1;
      LastDeltaWins(ds[..n], tag);
      NamedNext(ds, n, tag);
    }
  }

  lemma NamedNext(ds: seq<Delta>, n: nat, tag: string)
    requires n == |ds| - 1
    ensures Named(ds, tag) <==>
      (Named(ds[..n], tag) || (Classify(ds[n].name).Handler? && Classify(ds[n].name).tag == tag))
  {
    hide Classify;
    if Named(ds[..n], tag) {
      var i :| 0 <= i < n && Classify(ds[..n][i].name).Handler? && Classify(ds[..n][i].name).tag == tag;
      assert Classify(ds[i].name).tag == tag;
    }
    if Named(ds, tag) {
      var i :| 0 <= i < |ds| && Classify(ds[i].name).Handler? && Classify(ds[i].name).tag == tag;
      assert i < n ==> ds[..n][i] == ds[i];
    }
  }
}
