/**
 One scrape of the mtg traffic collector (CollectTraffic, internal/mtproto/manager.go): the
 deltas it reports, and the arithmetic that keeps them below what the process counted.
 */
module MtgTraffic {
  import opened Prelude
  import opened Text
  import opened MtgManager

  datatype StatsUser = StatsUser(connections: nat, bytesIn: nat, bytesOut: nat)

  datatype Traffic = Traffic(tag: string, email: string, up: nat, down: nat)

  /** What the collector copies of a managed entry before it lets go of the lock. */
  datatype Snap = Snap(id: Int64, apiPort: int, apiToken: string, tag: string, last: map<string, Counters>)

  function Seen(users: map<string, StatsUser>): map<string, Counters> {
    map e | e in users :: Counters(users[e].bytesIn, users[e].bytesOut)
  }

  function Sub(a: nat, b: nat): nat {
    if a > b then a - b else 0
  }

  /** The reported difference per client: only known clients, never negative, never both zero. */
  function Deltas(last: map<string, Counters>, seen: map<string, Counters>): map<string, Counters> {
    map e | e in seen && e in last && (seen[e].up > last[e].up || seen[e].down > last[e].down)
      :: Counters(Sub(seen[e].up, last[e].up), Sub(seen[e].down, last[e].down))
  }

  /** A client of the last scrape whose bytes, in or out, have grown since. */
  predicate Moved(e: string, last: map<string, Counters>, users: map<string, StatsUser>) {
    e in users && e in last && (users[e].bytesIn > last[e].up || users[e].bytesOut > last[e].down)
  }

  /** t says how far each counter of its client has gone beyond the last scrape. */
  ghost predicate Advances(t: Traffic, tag: string, last: map<string, Counters>, users: map<string, StatsUser>) {
    && t.tag == tag && t.email in users && t.email in last
    && var u, c := users[t.email], last[t.email];
       && t.up == (if u.bytesIn > c.up then u.bytesIn - c.up else 0)
       && t.down == (if u.bytesOut > c.down then u.bytesOut - c.down else 0)
       && t.up + t.down > 0
  }

  /** out lists the deltas, each client once, in any order. */
  ghost predicate Lists(out: seq<Traffic>, tag: string, deltas: map<string, Counters>) {
    && (forall i, j :: 0 <= i < j < |out| ==> out[i].email != out[j].email)
    && (forall i :: 0 <= i < |out| ==> out[i].tag == tag && out[i].email in deltas
                                       && deltas[out[i].email] == Counters(out[i].up, out[i].down))
    && (forall e :: e in deltas ==> exists i :: 0 <= i < |out| && out[i].email == e)
  }

  function Only(m: map<string, Counters>, emails: set<string>): map<string, Counters> {
    map e | e in m && e in emails :: m[e]
  }

  /** The loop over one /stats answer, in whatever order its map is walked. */
  method ScrapeDeltas(tag: string, last: map<string, Counters>, users: map<string, StatsUser>)
    returns (out: seq<Traffic>, online: seq<string>, newLast: map<string, Counters>)
    ensures newLast == Seen(users)
    ensures Lists(out, tag, Deltas(last, Seen(users)))
    ensures newLast.Keys == users.Keys
    ensures forall e :: e in users ==> newLast[e].up == users[e].bytesIn && newLast[e].down == users[e].bytesOut
    ensures forall i :: 0 <= i < |out| ==> Advances(out[i], tag, last, users)
    ensures forall i, j :: 0 <= i < j < |out| ==> out[i].email != out[j].email
    ensures forall e :: Moved(e, last, users) ==> exists i :: 0 <= i < |out| && out[i].email == e
    ensures forall e :: e in online <==> e in users && users[e].connections > 0
    ensures forall i, j :: 0 <= i < j < |online| ==> online[i] != online[j]
  {
    hide Lists, Sub;
    out, online, newLast := [], [], map[];
    NothingListed(tag, Deltas(last, Seen(users)));
    ghost var deltas := Deltas(last, Seen(users));
    var todo := users.Keys;
    while todo != {}
      invariant todo <= users.Keys
      invariant newLast.Keys == users.Keys - todo
      invariant forall e :: e in newLast ==> newLast[e] == Seen(users)[e]
      invariant Lists(out, tag, Only(deltas, users.Keys - todo))
      invariant forall e :: e in online <==> e in users.Keys - todo && users[e].connections > 0
      invariant forall i, j :: 0 <= i < j < |online| ==> online[i] != online[j]
    {
      var email :| email in todo;
      ghost var done := users.Keys - todo;
      todo := todo - {email};
      assert users.Keys - todo == done + {email};
      var u := users[email];
      newLast := newLast[email := Counters(u.bytesIn, u.bytesOut)];
      if u.connections > 0 {
        online := online + [email];
      }
      ghost var before := out;
      if email in last {
        var du, dd := Sub(u.bytesIn, last[email].up), Sub(u.bytesOut, last[email].down);
        SubPositive(u.bytesIn, last[email].up);
        SubPositive(u.bytesOut, last[email].down);
        if du > 0 || dd > 0 {
          out := out + [Traffic(tag, email, du, dd)];
        }
      }
      ListsNext(before, out, tag, deltas, done, email);
    }
    assert Only(deltas, users.Keys) == deltas;
    assert users.Keys - todo == users.Keys;
    ListsAdvances(out, tag, last, users);
  }

  lemma ListsAdvances(out: seq<Traffic>, tag: string, last: map<string, Counters>, users: map<string, StatsUser>)
    requires Lists(out, tag, Deltas(last, Seen(users)))
    ensures forall i :: 0 <= i < |out| ==> Advances(out[i], tag, last, users)
    ensures forall i, j :: 0 <= i < j < |out| ==> out[i].email != out[j].email
    ensures forall e :: Moved(e, last, users) ==> exists i :: 0 <= i < |out| && out[i].email == e
  {
    var deltas := Deltas(last, Seen(users));
    forall e | Moved(e, last, users)
      ensures exists i :: 0 <= i < |out| && out[i].email == e
    {
      assert e in deltas;
    }
  }

  lemma SubPositive(a: nat, b: nat)
    ensures Sub(a, b) > 0 <==> a > b
  {
  }

  lemma NothingListed(tag: string, deltas: map<string, Counters>)
    ensures Lists([], tag, Only(deltas, {}))
  {
  }

  lemma ListsNext(before: seq<Traffic>, out: seq<Traffic>, tag: string, deltas: map<string, Counters>,
                  done: set<string>, email: string)
    requires Lists(before, tag, Only(deltas, done)) && email !in done
    requires if email in deltas then out == before + [Traffic(tag, email, deltas[email].up, deltas[email].down)]
             else out == before
    ensures Lists(out, tag, Only(deltas, done + {email}))
  {
    var small, big := Only(deltas, done), Only(deltas, done + {email});
    forall e | e in big
      ensures exists i :: 0 <= i < |out| && out[i].email == e
    {
      if e == email {
        assert out[|before|].email == e;
      } else {
        assert e in small;
        var i :| 0 <= i < |before| && before[i].email == e;
        assert out[i].email == e;
      }
    }
  }

  // ---- counters, one direction at a time -----------------------------------------------

  function Val(c: Counters, up: bool): nat { if up then c.up else c.down }

  function At(m: map<string, Counters>, e: string, up: bool): nat {
    if e in m then Val(m[e], up) else 0
  }

  /** What the process counted for e: up is what came in from the client, down what went out to it. */
  function InOut(m: map<string, Bytes>, e: string, up: bool): nat {
    if e !in m then 0 else if up then m[e].bytesIn else m[e].bytesOut
  }

  /** What the next scrape would report for e, if it showed these values. */
  function Gain(seen: map<string, Counters>, last: map<string, Counters>, e: string, up: bool): nat {
    if e in seen && e in last then Sub(Val(seen[e], up), Val(last[e], up)) else 0
  }

  /** What it would report of the counters as they are. */
  function Pending(shown: map<string, Bytes>, last: map<string, Counters>, e: string, up: bool): nat {
    if e in shown && e in last then Sub(InOut(shown, e, up), Val(last[e], up)) else 0
  }

  function AddUp(m: map<string, Counters>, d: map<string, Counters>): map<string, Counters> {
    map e | e in m.Keys + d.Keys :: Counters(At(m, e, true) + At(d, e, true), At(m, e, false) + At(d, e, false))
  }

  lemma AddUpAt(m: map<string, Counters>, d: map<string, Counters>, e: string, up: bool)
    ensures At(AddUp(m, d), e, up) == At(m, e, up) + At(d, e, up)
  {
  }

  lemma DeltasAt(last: map<string, Counters>, seen: map<string, Counters>, e: string, up: bool)
    ensures At(Deltas(last, seen), e, up) == Gain(seen, last, e, up)
  {
  }

  /** Reported and pending bytes together stay below what was counted. */
  ghost predicate NoOver(m: Meter, last: map<string, Counters>) {
    forall e, up :: At(m.reported, e, up) + Pending(m.shown, last, e, up) <= InOut(m.counted, e, up)
  }

  /** A /stats answer: the counters of some of the clients. */
  predicate Answers(m: Meter, users: map<string, StatsUser>) {
    forall e :: e in users ==>
      e in m.shown && users[e].bytesIn == m.shown[e].bytesIn && users[e].bytesOut == m.shown[e].bytesOut
  }

  function Scraped(m: Meter, last: map<string, Counters>, users: map<string, StatsUser>): Meter {
    m.(reported := AddUp(m.reported, Deltas(last, Seen(users))), scrapes := m.scrapes + [Seen(users)])
  }

  /** An answer holds, for each client it names, what the process shows. */
  lemma SeenIsShown(m: Meter, users: map<string, StatsUser>, e: string, up: bool)
    requires Answers(m, users) && e in users
    ensures e in m.shown && Val(Seen(users)[e], up) == InOut(m.shown, e, up)
  {
  }

  lemma ScrapeKeepsNoOver(m: Meter, last: map<string, Counters>, users: map<string, StatsUser>)
    requires NoOver(m, last) && Answers(m, users)
    ensures NoOver(Scraped(m, last, users), Seen(users))
  {
    hide Answers, Deltas, AddUp, At, InOut, Val;
    var r := Scraped(m, last, users);
    forall e, up
      ensures At(r.reported, e, up) + Pending(r.shown, Seen(users), e, up) <= InOut(r.counted, e, up)
    {
      AddUpAt(m.reported, Deltas(last, Seen(users)), e, up);
      DeltasAt(last, Seen(users), e, up);
      if e in users {
        SeenIsShown(m, users, e, up);
      }
      assert At(m.reported, e, up) + Pending(m.shown, last, e, up) <= InOut(m.counted, e, up);
    }
  }

  function AddBytes(m: map<string, Bytes>, e: string, bytesIn: nat, bytesOut: nat): map<string, Bytes> {
    m[e := Bytes(InOut(m, e, true) + bytesIn, InOut(m, e, false) + bytesOut)]
  }

  function Counted(m: Meter, e: string, bytesIn: nat, bytesOut: nat): Meter {
    m.(shown := AddBytes(m.shown, e, bytesIn, bytesOut), counted := AddBytes(m.counted, e, bytesIn, bytesOut))
  }

  lemma CountKeepsNoOver(m: Meter, e: string, bytesIn: nat, bytesOut: nat, last: map<string, Counters>)
    requires NoOver(m, last)
    ensures NoOver(Counted(m, e, bytesIn, bytesOut), last)
  {
    var r := Counted(m, e, bytesIn, bytesOut);
    forall x, dir
      ensures At(r.reported, x, dir) + Pending(r.shown, last, x, dir) <= InOut(r.counted, x, dir)
    {
      assert At(m.reported, x, dir) + Pending(m.shown, last, x, dir) <= InOut(m.counted, x, dir);
    }
  }

  /** A process forgets a client, as when its secret is dropped and added again. */
  function Reset(m: Meter, e: string): Meter {
    m.(shown := m.shown - {e}, resets := m.resets + {e})
  }

  lemma ResetKeepsNoOver(m: Meter, e: string, last: map<string, Counters>)
    requires NoOver(m, last)
    ensures NoOver(Reset(m, e), last)
  {
    var r := Reset(m, e);
    forall x, dir
      ensures At(r.reported, x, dir) + Pending(r.shown, last, x, dir) <= InOut(r.counted, x, dir)
    {
      assert At(m.reported, x, dir) + Pending(m.shown, last, x, dir) <= InOut(m.counted, x, dir);
    }
  }

  /** Never scraped: nothing reported, and not more shown than counted. */
  ghost predicate Unscraped(m: Meter) {
    m.reported == map[] && m.scrapes == [] && forall e, up :: InOut(m.shown, e, up) <= InOut(m.counted, e, up)
  }

  lemma UnscrapedNoOver(m: Meter, last: map<string, Counters>)
    requires Unscraped(m)
    ensures NoOver(m, last)
  {
  }

  // ---- exactness along the scrapes of one process ------------------------------------------

  function LastScrape(m: Meter): map<string, Counters> {
    if m.scrapes == [] then map[] else m.scrapes[|m.scrapes| - 1]
  }

  /** The sum of the differences between consecutive scrapes that both name e. */
  function DeltaSum(scrapes: seq<map<string, Counters>>, e: string, up: bool): nat {
    if |scrapes| < 2 then 0
    else
      var n := |scrapes| - 1;
      DeltaSum(scrapes[..n], e, up) + Gain(scrapes[n], scrapes[n - 1], e, up)
  }

  ghost predicate Exact(m: Meter) {
    forall e, up :: At(m.reported, e, up) == DeltaSum(m.scrapes, e, up)
  }

  lemma ScrapeKeepsExact(m: Meter, users: map<string, StatsUser>)
    requires Exact(m)
    ensures Exact(Scraped(m, LastScrape(m), users))
  {
    var r := Scraped(m, LastScrape(m), users);
    forall e, up
      ensures At(r.reported, e, up) == DeltaSum(r.scrapes, e, up)
    {
      AddUpAt(m.reported, Deltas(LastScrape(m), Seen(users)), e, up);
      DeltasAt(LastScrape(m), Seen(users), e, up);
      assert r.scrapes[..|r.scrapes| - 1] == m.scrapes;
      assert At(m.reported, e, up) == DeltaSum(m.scrapes, e, up);
    }
  }

  predicate Le(a: Counters, b: Counters) { a.up <= b.up && a.down <= b.down }

  predicate Within(a: Counters, b: Bytes) { a.up <= b.bytesIn && a.down <= b.bytesOut }

  /** The scraped values of e never decrease, nor exceed what is shown now. */
  ghost predicate Rising(m: Meter, e: string) {
    && (forall i :: 0 <= i < |m.scrapes| && e in m.scrapes[i] ==> e in m.shown && Within(m.scrapes[i][e], m.shown[e]))
    && (forall i, j :: 0 <= i < j < |m.scrapes| && e in m.scrapes[i] && e in m.scrapes[j] ==>
          Le(m.scrapes[i][e], m.scrapes[j][e]))
  }

  /** So it is for every client whose counter never restarted. */
  ghost predicate Monotone(m: Meter) {
    forall e :: e !in m.resets ==> Rising(m, e)
  }

  lemma ScrapeKeepsRising(m: Meter, last: map<string, Counters>, users: map<string, StatsUser>, e: string)
    requires Rising(m, e) && Answers(m, users)
    ensures Rising(Scraped(m, last, users), e)
  {
    var r := Scraped(m, last, users);
    assert forall i :: 0 <= i < |m.scrapes| ==> r.scrapes[i] == m.scrapes[i];
    assert r.scrapes[|m.scrapes|] == Seen(users);
  }

  lemma ScrapeKeepsMonotone(m: Meter, last: map<string, Counters>, users: map<string, StatsUser>)
    requires Monotone(m) && Answers(m, users)
    ensures Monotone(Scraped(m, last, users))
  {
    hide Rising, Answers;
    forall e | e !in m.resets
      ensures Rising(Scraped(m, last, users), e)
    {
      ScrapeKeepsRising(m, last, users, e);
    }
  }

  lemma CountKeepsMonotone(m: Meter, e: string, bytesIn: nat, bytesOut: nat)
    requires Monotone(m)
    ensures Monotone(Counted(m, e, bytesIn, bytesOut))
  {
    var r := Counted(m, e, bytesIn, bytesOut);
    forall x | x !in m.resets
      ensures Rising(r, x)
    {
      assert Rising(m, x);
    }
  }

  lemma ResetKeepsMonotone(m: Meter, e: string)
    requires Monotone(m)
    ensures Monotone(Reset(m, e))
  {
    var r := Reset(m, e);
    forall x | x !in r.resets
      ensures Rising(r, x)
    {
      assert Rising(m, x) && x != e;
    }
  }

  /** With e in every scrape and no restart, the differences add up to last minus first. */
  lemma {:induction false} DeltaSumTelescopes(scrapes: seq<map<string, Counters>>, e: string, up: bool)
    requires scrapes != [] && forall i :: 0 <= i < |scrapes| ==> e in scrapes[i]
    requires forall i, j :: 0 <= i < j < |scrapes| ==> Le(scrapes[i][e], scrapes[j][e])
    ensures At(scrapes[0], e, up) + DeltaSum(scrapes, e, up) == At(scrapes[|scrapes| - 1], e, up)
  {
    if |scrapes| > 1 {
      var n := |scrapes| - 1;
      DeltaSumTelescopes(scrapes[..n], e, up);
      assert Le(scrapes[n - 1][e], scrapes[n][e]);
    }
  }
}
