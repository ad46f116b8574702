/**
 Which stat names GetTraffic (internal/xray/api.go) reads as a client's traffic, and what a client's
 record says of the counters behind them.
 */
module StatsClients {
  import opened Prelude
  import opened Text
  import opened StatsDeltas
  import opened StatsRecords

  /** The name under which the core counts a client's traffic. */
  function UserName(email: string, down: bool): string {
    "user>>>" + email + (if down then ">>>traffic>>>downlink" else ">>>traffic>>>uplink")
  }

  /** Something of at least one character, and no '>'. */
  predicate PlainName(s: string) { s != "" && '>' !in s }

  // ---- the patterns -------------------------------------------------------------------

  /** The common part of both patterns: a name, then the direction. */
  lemma NameAndDirectionExactly(s: string, name: string, down: bool)
    ensures NameAndDirection(s) == Some((name, down)) <==>
      PlainName(name) && HasPrefix(s, name + (if down then ">>>traffic>>>downlink" else ">>>traffic>>>uplink"))
  {
    hide NameAndDirection, HasPrefix;
    var tail := if down then ">>>traffic>>>downlink" else ">>>traffic>>>uplink";
    if NameAndDirection(s) == Some((name, down)) {
      DirectionFound(s, name, down);
    }
    if PlainName(name) && HasPrefix(s, name + tail) {
      DirectionMatches(s, name, down);
    }
  }

  lemma DirectionFound(s: string, name: string, down: bool)
    requires NameAndDirection(s) == Some((name, down))
    ensures PlainName(name)
    ensures HasPrefix(s, name + (if down then ">>>traffic>>>downlink" else ">>>traffic>>>uplink"))
  {
    hide IndexOf;
    IndexPlain(s);
    var tail := if down then ">>>traffic>>>downlink" else ">>>traffic>>>uplink";
    assert name == s[..|name|] && HasPrefix(s[|name|..], tail);
    PrefixSplit(s, name, tail);
  }

  lemma DirectionMatches(s: string, name: string, down: bool)
    requires PlainName(name)
    requires HasPrefix(s, name + (if down then ">>>traffic>>>downlink" else ">>>traffic>>>uplink"))
    ensures NameAndDirection(s) == Some((name, down))
  {
    hide IndexOf;
    var tail := if down then ">>>traffic>>>downlink" else ">>>traffic>>>uplink";
    PrefixSplit(s, name, tail);
    assert s[|name|] == s[|name|..][0] == tail[0];
    IndexAt(s, '>', |name|);
    OneDirection(s[|name|..], down);
  }

  lemma OneDirection(s: string, down: bool)
    ensures HasPrefix(s, ">>>traffic>>>uplink") ==> !HasPrefix(s, ">>>traffic>>>downlink")
  {
    if HasPrefix(s, ">>>traffic>>>uplink") {
      assert s[..19][13] == 'u';
    }
  }

  lemma IndexPlain(s: string)
    ensures '>' !in s[..Plain(s)]
  {
  }

  /** The handler pattern matches here exactly when the text goes on with that handler's stat name. */
  lemma HandlerHereExactly(s: string, inbound: bool, tag: string, down: bool)
    ensures HandlerHere(s) == Some(Handler(inbound, tag, down)) <==>
      PlainName(tag) && HasPrefix(s, StatName(inbound, tag, down))
  {
    hide NameAndDirection;
    var tail := if down then ">>>traffic>>>downlink" else ">>>traffic>>>uplink";
    var head := if inbound then "inbound>>>" else "outbound>>>";
    Regroup(head, tag, tail);
    PrefixSplit(s, head, tag + tail);
    if HasPrefix(s, "inbound>>>") {
      assert s[..10][0] == s[0];
    }
    if HasPrefix(s, "outbound>>>") {
      assert s[..11][0] == s[0];
    }
    if HasPrefix(s, head) {
      NameAndDirectionExactly(s[|head|..], tag, down);
    }
  }

  lemma PrefixSplit(s: string, a: string, b: string)
    ensures HasPrefix(s, a + b) <==> HasPrefix(s, a) && HasPrefix(s[|a|..], b)
  {
    if HasPrefix(s, a + b) {
      assert s[..|a|] == (a + b)[..|a|] == a;
      assert s[|a|..][..|b|] == s[..|a + b|][|a|..] == b;
    }
    if HasPrefix(s, a) && HasPrefix(s[|a|..], b) {
      assert s[..|a| + |b|] == s[..|a|] + s[|a|..][..|b|];
    }
  }

  /** The client pattern matches here exactly when the text goes on with that client's stat name. */
  lemma ClientHereExactly(s: string, email: string, down: bool)
    ensures ClientHere(s) == Some(Client(email, down)) <==> PlainName(email) && HasPrefix(s, UserName(email, down))
  {
    hide NameAndDirection;
    var tail := if down then ">>>traffic>>>downlink" else ">>>traffic>>>uplink";
    Regroup("user>>>", email, tail);
    PrefixSplit(s, "user>>>", email + tail);
    if HasPrefix(s, "user>>>") {
      NameAndDirectionExactly(s[7..], email, down);
    }
  }

  lemma {:induction false} FindHandlerExactly(s: string)
    ensures FindHandler(s).None? <==> forall i :: 0 <= i < |s| ==> HandlerHere(s[i..]).None?
    ensures FindHandler(s).Some? ==> FindHandler(s).value.Handler?
  {
    hide HandlerHere;
    HandlerIsHandler(s);
    if s != "" {
      FindHandlerExactly(s[1..]);
      assert s[0..] == s;
      assert forall i :: 1 <= i < |s| ==> s[i..] == s[1..][i - 1..];
      if HandlerHere(s).None? && FindHandler(s[1..]).None? {
        forall i | 0 <= i < |s|
          ensures HandlerHere(s[i..]).None?
        {
          assert i > 0 ==> s[i..] == s[1..][i - 1..];
        }
      }
      if forall i :: 0 <= i < |s| ==> HandlerHere(s[i..]).None? {
        forall i | 0 <= i < |s[1..]|
          ensures HandlerHere(s[1..][i..]).None?
        {
          assert s[1..][i..] == s[i + 1..];
        }
      }
    }
  }

  lemma HandlerIsHandler(s: string)
    ensures HandlerHere(s).Some? ==> HandlerHere(s).value.Handler?
  {
    hide NameAndDirection;
  }

  // ---- a client's stat name -----------------------------------------------------------

  /** Where a client's stat name has a '>'. */
  lemma BracketsIn(email: string, down: bool, k: int)
    requires '>' !in email
    ensures var s, l := UserName(email, down), 7 + |email|;
      0 <= k < |s| && s[k] == '>' ==> 4 <= k < 7 || l <= k < l + 3 || l + 10 <= k < l + 13
  {
    var tail := if down then ">>>traffic>>>downlink" else ">>>traffic>>>uplink";
    var s, l := UserName(email, down), 7 + |email|;
    if 0 <= k < 7 {
      assert s[k] == "user>>>"[k];
    } else if 7 <= k < l {
      assert s[k] == email[k - 7];
    } else if l <= k < |s| {
      assert s[k] == tail[k - l];
    }
  }

  /** No handler's stat name is found anywhere in it. */
  lemma NoHandlerInside(email: string, down: bool, i: nat)
    requires '>' !in email && i < |UserName(email, down)|
    ensures HandlerHere(UserName(email, down)[i..]).None?
  {
    hide HandlerHere, UserName;
    var s := UserName(email, down);
    HandlerIsHandler(s[i..]);
    if HandlerHere(s[i..]).Some? {
      var k := HandlerHere(s[i..]).value;
      HandlerHereExactly(s[i..], k.inbound, k.tag, k.down);
      NotThere(email, down, i, k.inbound, k.tag, k.down);
    }
  }

  lemma NotThere(email: string, down: bool, i: nat, inbound: bool, tag: string, d: bool)
    requires '>' !in email && i < |UserName(email, down)| && PlainName(tag)
    ensures !HasPrefix(UserName(email, down)[i..], StatName(inbound, tag, d))
  {
    hide UserName, StatName, HasPrefix;
    var s, t := UserName(email, down), StatName(inbound, tag, d);
    var p := if inbound then 7 else 8;
    var q := p + 3 + |tag|;
    BracketsOf(inbound, tag, d);
    CharBehind(s, i, t, p);
    CharBehind(s, i, t, p + 2);
    CharBehind(s, i, t, q);
    CharBehind(s, i, t, q + 2);
    CharBehind(s, i, t, q + 10);
    BracketsIn(email, down, i + p);
    BracketsIn(email, down, i + p + 2);
    BracketsIn(email, down, i + q);
    BracketsIn(email, down, i + q + 2);
    BracketsIn(email, down, i + q + 10);
  }

  lemma CharBehind(s: string, i: nat, t: string, k: nat)
    requires i <= |s| && k < |t|
    ensures HasPrefix(s[i..], t) ==> i + k < |s| && s[i + k] == t[k]
  {
    if HasPrefix(s[i..], t) {
      assert s[i..][..|t|][k] == s[i + k];
    }
  }

  /** Some of the '>' in a handler's stat name. */
  lemma BracketsOf(inbound: bool, tag: string, down: bool)
    ensures var t, p := StatName(inbound, tag, down), if inbound then 7 else 8;
      var q := p + 3 + |tag|;
      |t| > q + 10 && t[p] == t[p + 2] == t[q] == t[q + 2] == t[q + 10] == '>'
  {
  }

  /** A client's stat name is read back as that client and direction, whatever plain text the email is. */
  lemma UserNameIsRead(email: string, down: bool)
    requires PlainName(email)
    ensures Classify(UserName(email, down)) == Client(email, down)
  {
    hide HandlerHere, ClientHere, UserName;
    var s := UserName(email, down);
    FindHandlerExactly(s);
    forall i | 0 <= i < |s|
      ensures HandlerHere(s[i..]).None?
    {
      NoHandlerInside(email, down, i);
    }
    ClientHereExactly(s, email, down);
    assert s[..|s|] == s;
    NotEmpty(email, down);
  }

  lemma NotEmpty(email: string, down: bool)
    ensures UserName(email, down) != ""
  {
  }

  // ---- what other names are read as ---------------------------------------------------------

  /** The text contains part. */
  ghost predicate Contains(s: string, part: string) {
    exists i :: 0 <= i <= |s| && HasPrefix(s[i..], part)
  }

  lemma ContainsMore(s: string, part: string)
    requires s != "" && Contains(s[1..], part)
    ensures Contains(s, part)
  {
    var i :| 0 <= i <= |s[1..]| && HasPrefix(s[1..][i..], part);
    assert s[1..][i..] == s[i + 1..];
  }

  lemma ContainsHere(s: string, part: string)
    requires HasPrefix(s, part)
    ensures Contains(s, part)
  {
    assert s[0..] == s;
  }

  lemma {:induction false} HandlerIsThere(s: string, inbound: bool, tag: string, down: bool)
    requires FindHandler(s) == Some(Handler(inbound, tag, down))
    ensures PlainName(tag) && Contains(s, StatName(inbound, tag, down))
  {
    hide HandlerHere, Contains, StatName, HasPrefix;
    if HandlerHere(s).Some? {
      HandlerHereExactly(s, inbound, tag, down);
      ContainsHere(s, StatName(inbound, tag, down));
    } else {
      HandlerIsThere(s[1..], inbound, tag, down);
      ContainsMore(s, StatName(inbound, tag, down));
    }
  }

  lemma {:induction false} ClientIsThere(s: string, email: string, down: bool)
    requires FindClient(s) == Some(Client(email, down))
    ensures PlainName(email) && Contains(s, UserName(email, down))
  {
    hide ClientHere, Contains, UserName, HasPrefix;
    if ClientHere(s).Some? {
      ClientHereExactly(s, email, down);
      ContainsHere(s, UserName(email, down));
    } else {
      ClientIsThere(s[1..], email, down);
      ContainsMore(s, UserName(email, down));
    }
  }

  lemma {:induction false} FindClientIsClient(s: string)
    ensures FindClient(s).Some? ==> FindClient(s).value.Client?
  {
    hide NameAndDirection;
    if s != "" {
      FindClientIsClient(s[1..]);
    }
  }

  /** A name is never read as traffic whose stat name it does not contain. */
  lemma ReadNamesAreThere(name: string)
    ensures match Classify(name)
      case Handler(inbound, tag, down) => PlainName(tag) && Contains(name, StatName(inbound, tag, down))
      case Client(email, down) => PlainName(email) && Contains(name, UserName(email, down))
      case Other => true
  {
    hide Contains, StatName, UserName;
    FindHandlerExactly(name);
    FindClientIsClient(name);
    match Classify(name)
    case Handler(inbound, tag, down) => HandlerIsThere(name, inbound, tag, down);
    case Client(email, down) => ClientIsThere(name, email, down);
    case Other =>
  }

  // ---- records ------------------------------------------------------------------------

  /** v is the last delta of this kind; none came: 0. */
  ghost predicate IsLast(ds: seq<Delta>, k: Kind, v: int) {
    || (v == 0 && forall j :: 0 <= j < |ds| ==> Classify(ds[j].name) != k)
    || (exists i: nat :: i < |ds| && Classify(ds[i].name) == k && ds[i].value == v
          && forall j :: i < j < |ds| ==> Classify(ds[j].name) != k)
  }

  /** Some delta is this client's. */
  ghost predicate Came(ds: seq<Delta>, email: string) {
    exists i, down :: 0 <= i < |ds| && Classify(ds[i].name) == Client(email, down)
  }

  lemma LastNext(ds: seq<Delta>, d: Delta, k: Kind, v: int)
    requires if Classify(d.name) == k then v == d.value else IsLast(ds, k, v)
    ensures IsLast(ds + [d], k, v)
  {
    hide Classify;
    var all := ds + [d];
    assert all[|ds|] == d;
    assert forall i :: 0 <= i < |ds| ==> all[i] == ds[i];
    if Classify(d.name) != k && !(v == 0 && forall j :: 0 <= j < |ds| ==> Classify(ds[j].name) != k) {
      var i: nat :| i < |ds| && Classify(ds[i].name) == k && ds[i].value == v
        && forall j :: i < j < |ds| ==> Classify(ds[j].name) != k;
      assert Classify(all[i].name) == k && all[i].value == v;
    }
  }

  lemma CameNext(ds: seq<Delta>, d: Delta, email: string)
    ensures Came(ds + [d], email) <==>
      Came(ds, email) || Classify(d.name) == Client(email, false) || Classify(d.name) == Client(email, true)
  {
    hide Classify;
    var all := ds + [d];
    assert all[|ds|] == d;
    assert forall i :: 0 <= i < |ds| ==> all[i] == ds[i];
    if Came(ds, email) {
      var i, down :| 0 <= i < |ds| && Classify(ds[i].name) == Client(email, down);
      assert Classify(all[i].name) == Client(email, down);
    }
    if Came(all, email) {
      var i, down :| 0 <= i < |all| && Classify(all[i].name) == Client(email, down);
      assert i < |ds| ==> Classify(ds[i].name) == Client(email, down);
    }
  }

  lemma NothingCame(email: string)
    ensures !Came([], email) && IsLast([], Client(email, false), 0) && IsLast([], Client(email, true), 0)
  {
  }

  /** An email has a record exactly when a delta of it came; up and down are the last of their names. */
  lemma {:induction false} EmailRecord(ds: seq<Delta>, email: string)
    ensures email in EmailTraffic(ds) <==> Came(ds, email)
    ensures var t := if email in EmailTraffic(ds) then EmailTraffic(ds)[email] else ClientTraffic(0, 0);
      IsLast(ds, Client(email, false), t.up) && IsLast(ds, Client(email, true), t.down)
  {
    hide Classify, IsLast, Came;
    if ds == [] {
      NothingCame(email);
    } else {
      var n := |ds| - 1;
      var front, d := ds[..n], ds[n];
      assert ds == front + [d];
      EmailRecord(front, email);
      CameNext(front, d, email);
      var t := if email in EmailTraffic(ds) then EmailTraffic(ds)[email] else ClientTraffic(0, 0);
      LastNext(front, d, Client(email, false), t.up);
      LastNext(front, d, Client(email, true), t.down);
    }
  }

  // ---- from counters to the record ------------------------------------------------------

  /** Position i holds the one stat of this kind. */
  ghost predicate OnlyAt(stats: seq<Stat>, k: Kind, i: nat) {
    && i < |stats| && Classify(stats[i].name) == k
    && forall j :: 0 <= j < |stats| && j != i ==> Classify(stats[j].name) != k
  }

  lemma {:induction false} NoneOfKind(last: map<string, Int64>, stats: seq<Stat>, k: Kind)
    requires forall j :: 0 <= j < |stats| ==> Classify(stats[j].name) != k
    ensures forall j :: 0 <= j < |Deltas(last, stats)| ==> Classify(Deltas(last, stats)[j].name) != k
  {
    hide Classify, Baseline;
    if stats != [] {
      NoneOfKind(last, stats[..|stats| - 1], k);
    }
  }

  /** How far a counter went forward. */
  function Forward(before: int, now: int): int {
    if now >= before then now - before else 0
  }

  /** The one counter of its kind: the last delta is how far it went forward. */
  lemma {:induction false} OneCounter(last: map<string, Int64>, stats: seq<Stat>, k: Kind, i: nat)
    requires OnlyAt(stats, k, i) && stats[i].name in last
    ensures IsLast(Deltas(last, stats), k, Forward(last[stats[i].name], stats[i].value))
  {
    hide Classify, IsLast, Baseline, Deltas, DeltaOf;
    var n := |stats| - 1;
    var front, s := stats[..n], stats[n];
    var v := Forward(last[stats[i].name], stats[i].value);
    assert stats[..n + 1] == stats;
    NextStat(last, stats, n);
    DeltaWhen(Baseline(last, front), s);
    var ds := Deltas(last, front);
    if i == n {
      NoneOfKind(last, front, k);
      OthersAreKept(last, front, s.name);
      NoneIsZero(ds, k);
    } else {
      assert OnlyAt(front, k, i);
      OneCounter(last, front, k, i);
    }
    if DeltaOf(Baseline(last, front), s) != [] {
      LastNext(ds, Delta(s.name, s.value - Baseline(last, front)[s.name]), k, v);
    }
  }

  lemma NoneIsZero(ds: seq<Delta>, k: Kind)
    requires forall j :: 0 <= j < |ds| ==> Classify(ds[j].name) != k
    ensures IsLast(ds, k, 0)
  {
  }

  lemma LastIsUnique(ds: seq<Delta>, k: Kind, v: int, w: int)
    requires IsLast(ds, k, v) && IsLast(ds, k, w)
    ensures v == w
  {
  }

  /** The one counter of its kind is remembered with the value it showed. */
  lemma StaysRemembered(last: map<string, Int64>, stats: seq<Stat>, k: Kind, i: nat)
    requires OnlyAt(stats, k, i)
    ensures stats[i].name in AfterPoll(last, stats) && AfterPoll(last, stats)[stats[i].name] == stats[i].value
  {
    hide Classify, Baseline;
    assert LastShownAt(stats, stats[i].name, i);
    LastIsRemembered(last, stats, stats[i].name, i);
    PrunedExactly(last, stats, stats[i].name);
  }

  /** Some delta is of this kind. */
  ghost predicate Comes(ds: seq<Delta>, k: Kind) {
    exists j :: 0 <= j < |ds| && Classify(ds[j].name) == k
  }

  lemma ComesNext(ds: seq<Delta>, d: Delta, k: Kind)
    ensures Comes(ds + [d], k) <==> Comes(ds, k) || Classify(d.name) == k
  {
    hide Classify;
    var all := ds + [d];
    assert all[|ds|] == d && forall j :: 0 <= j < |ds| ==> all[j] == ds[j];
    if Comes(ds, k) {
      var j :| 0 <= j < |ds| && Classify(ds[j].name) == k;
      assert Classify(all[j].name) == k;
    }
  }

  /** A counter has a delta, if only of zero, exactly when it was seen before and has not gone back. */
  lemma {:induction false} ComesExactly(last: map<string, Int64>, stats: seq<Stat>, k: Kind, i: nat)
    requires OnlyAt(stats, k, i)
    ensures Comes(Deltas(last, stats), k) <==> stats[i].name in last && stats[i].value >= last[stats[i].name]
  {
    hide Classify, Comes, Baseline, Deltas, DeltaOf;
    var n := |stats| - 1;
    var front, s := stats[..n], stats[n];
    assert stats[..n + 1] == stats;
    NextStat(last, stats, n);
    DeltaWhen(Baseline(last, front), s);
    var ds := Deltas(last, front);
    if i == n {
      NoneOfKind(last, front, k);
      NoneComes(ds, k);
      OthersAreKept(last, front, s.name);
    } else {
      assert OnlyAt(front, k, i);
      ComesExactly(last, front, k, i);
    }
    if DeltaOf(Baseline(last, front), s) != [] {
      ComesNext(ds, Delta(s.name, s.value - Baseline(last, front)[s.name]), k);
    }
  }

  lemma NoneComes(ds: seq<Delta>, k: Kind)
    requires forall j :: 0 <= j < |ds| ==> Classify(ds[j].name) != k
    ensures !Comes(ds, k)
  {
  }

  /** Two polls: the client's record has, in the counter's direction, how far the counter went forward between them. */
  method ClientIsBooked(email: string, down: bool, first: seq<Stat>, second: seq<Stat>, ghost i: nat, ghost j: nat)
    returns (booked: int)
    requires PlainName(email) && i < |first| && j < |second|
    requires OnlyAt(first, Client(email, down), i) && first[i].name == UserName(email, down)
    requires OnlyAt(second, Client(email, down), j) && second[j].name == UserName(email, down)
    ensures booked == Forward(first[i].value, second[j].value)
  {
    hide Classify, IsLast, Came, OnlyAt, AfterPoll, Deltas, EmailTraffic, TagTraffic, UserName;
    var reader := new Reader();
    var before, _ := reader.GetTraffic(first);
    ghost var last := reader.statsLastValues;
    var _, emails := reader.GetTraffic(second);
    var t := if email in emails then emails[email] else ClientTraffic(0, 0);
    booked := if down then t.down else t.up;
    StaysRemembered(map[], first, Client(email, down), i);
    OneCounter(last, second, Client(email, down), j);
    EmailRecord(Deltas(last, second), email);
    LastIsUnique(Deltas(last, second), Client(email, down), booked, Forward(first[i].value, second[j].value));
  }
}
