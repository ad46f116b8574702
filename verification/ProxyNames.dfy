/**
 Proxy naming (ensureUniqueProxyNames, internal/sub/clash_service.go): every proxy gets a
 non-empty name of its own, and keeps its base name where that is still free.
 */
module ProxyNames {
  import opened Prelude
  import opened Text

  datatype Proxy = Proxy(name: string, kind: string, server: string, port: string)

  function FallbackProxyName(p: Proxy, idx: nat): (name: string)
    ensures name != ""
  {
    if p.kind != "" && p.server != "" then p.kind + "-" + p.server + "-" + p.port
    else "proxy-" + Itoa(idx + 1)
  }

  function BaseName(p: Proxy, idx: nat): (name: string)
    ensures name != "" && (p.name != "" ==> name == p.name)
  {
    if p.name != "" then p.name else FallbackProxyName(p, idx)
  }

  /** The base name itself, then base-2, base-3, and so on. */
  function Candidate(base: string, n: nat): string {
    if n < 2 then base else base + "-" + Itoa(n)
  }

  lemma CandidateLength(base: string, n: nat)
    ensures if n < 2 then Candidate(base, n) == base else |Candidate(base, n)| > |base|
    ensures n >= 2 ==> Candidate(base, n)[|base| + 1..] == Itoa(n)
  {
    hide Itoa;
  }

  /** Different numbers give different candidates. */
  lemma CandidatesDiffer(base: string, m: nat, n: nat)
    requires 1 <= m && 1 <= n && m != n
    ensures Candidate(base, m) != Candidate(base, n)
  {
    hide Itoa, Candidate;
    CandidateLength(base, m);
    CandidateLength(base, n);
    if Itoa(m) == Itoa(n) {
      ItoaInjective(m, n);
    }
  }

  /** The candidates below n. */
  function Tried(base: string, n: nat): set<string> {
    set k | 1 <= k < n :: Candidate(base, k)
  }

  lemma {:induction false} TriedCount(base: string, n: nat)
    requires 1 <= n
    ensures |Tried(base, n)| == n - 1
  {
    hide Candidate;
    if n == 1 {
      assert Tried(base, 1) == {};
    } else {
      TriedCount(base, n - 1);
      assert Tried(base, n) == Tried(base, n - 1) + {Candidate(base, n - 1)};
      forall k | 1 <= k < n - 1
        ensures Candidate(base, k) != Candidate(base, n - 1)
      {
        CandidatesDiffer(base, k, n - 1);
      }
    }
  }

  lemma SubsetCount(a: set<string>, b: set<string>)
    requires a <= b
    ensures |a| <= |b|
  {
    assert b == a + (b - a);
    assert |b| == |a| + |b - a|;
  }

  /** No more candidates can have been refused than there are names taken. */
  lemma Pigeonhole(base: string, n: nat, seen: set<string>)
    requires 1 <= n && Tried(base, n) <= seen
    ensures n - 1 <= |seen|
  {
    TriedCount(base, n);
    SubsetCount(Tried(base, n), seen);
  }

  /** The first candidate not taken. */
  ghost predicate FirstFree(name: string, base: string, seen: set<string>) {
    exists n: nat :: 1 <= n && name == Candidate(base, n) && name !in seen && Tried(base, n) <= seen
  }

  method PickName(base: string, seen: set<string>) returns (name: string)
    requires base != ""
    ensures FirstFree(name, base, seen) && name != ""
  {
    name := base;
    var n: nat := 2;
    TriedNext(base, 1);
    while name in seen
      invariant 2 <= n && name == Candidate(base, n - 1) && Tried(base, n - 1) <= seen
      decreases |seen| + 2 - n
    {
      TriedNext(base, n - 1);
      Pigeonhole(base, n, seen);
      name := base + "-" + Itoa(n);
      n := n + 1;
    }
    assert Candidate(base, n - 1) != "";
  }

  lemma TriedNext(base: string, n: nat)
    requires 1 <= n
    ensures Tried(base, 1) == {}
    ensures Tried(base, n + 1) == Tried(base, n) + {Candidate(base, n)}
  {
    hide Candidate;
  }

  /** The names before position i. */
  function NamesBefore(ps: seq<Proxy>, i: nat): set<string>
    requires i <= |ps|
  {
    set k | 0 <= k < i :: ps[k].name
  }

  /** What renaming leaves: each proxy has the first free name for its base, and is otherwise the same. */
  ghost predicate Renamed(before: seq<Proxy>, after: seq<Proxy>, upto: nat)
    requires upto <= |before| == |after|
  {
    && (forall i :: 0 <= i < upto ==>
          FirstFree(after[i].name, BaseName(before[i], i), NamesBefore(after, i))
          && after[i].name != "" && after[i] == before[i].(name := after[i].name))
    && (forall i :: upto <= i < |before| ==> after[i] == before[i])
  }

  method EnsureUniqueProxyNames(proxies: array<Proxy>)
    modifies proxies
    ensures Renamed(old(proxies[..]), proxies[..], proxies.Length)
  {
    hide FirstFree, BaseName;
    ghost var before := proxies[..];
    var seen: set<string> := {};
    for i := 0 to proxies.Length
      invariant Renamed(before, proxies[..], i)
      invariant seen == NamesBefore(proxies[..], i)
    {
      var base := proxies[i].name;
      if base == "" {
        base := FallbackProxyName(proxies[i], i);
      }
      BaseNameIs(proxies[i], i);
      var name := PickName(base, seen);
      ghost var now := proxies[..];
      seen := seen + {name};
      proxies[i] := proxies[i].(name := name);
      RenameOne(before, now, i, name);
      assert proxies[..] == now[i := now[i].(name := name)];
    }
  }

  lemma BaseNameIs(p: Proxy, i: nat)
    ensures BaseName(p, i) == if p.name == "" then FallbackProxyName(p, i) else p.name
  {
  }

  lemma RenameOne(before: seq<Proxy>, now: seq<Proxy>, i: nat, name: string)
    requires i < |before| == |now| && Renamed(before, now, i) && name != ""
    requires FirstFree(name, BaseName(before[i], i), NamesBefore(now, i))
    ensures var next := now[i := now[i].(name := name)];
      Renamed(before, next, i + 1) && NamesBefore(next, i + 1) == NamesBefore(now, i) + {name}
  {
    hide FirstFree, BaseName;
    var next := now[i := now[i].(name := name)];
    forall k | 0 <= k <= i
      ensures NamesBefore(next, k) == NamesBefore(now, k)
    {
      assert forall x :: 0 <= x < k ==> next[x] == now[x];
    }
    assert NamesBefore(next, i + 1) == NamesBefore(next, i) + {next[i].name};
  }

  /** Afterwards no two proxies share a name, and none has an empty one. */
  lemma NamesAreUnique(before: seq<Proxy>, after: seq<Proxy>)
    requires |before| == |after| && Renamed(before, after, |before|)
    ensures forall i, j :: 0 <= i < j < |after| ==> after[i].name != after[j].name
    ensures forall i :: 0 <= i < |after| ==> after[i].name != ""
  {
    hide BaseName;
    forall i, j | 0 <= i < j < |after|
      ensures after[i].name != after[j].name
    {
      assert FirstFree(after[j].name, BaseName(before[j], j), NamesBefore(after, j));
      assert after[i].name in NamesBefore(after, j);
    }
  }

  /** A proxy keeps its base name exactly when no earlier proxy ended up with it. */
  lemma FreeBaseIsKept(before: seq<Proxy>, after: seq<Proxy>, i: nat)
    requires |before| == |after| && Renamed(before, after, |before|) && i < |before|
    ensures after[i].name == BaseName(before[i], i) <==>
      forall k :: 0 <= k < i ==> after[k].name != BaseName(before[i], i)
  {
    hide BaseName, Candidate;
    var base := BaseName(before[i], i);
    var n: nat :| 1 <= n && after[i].name == Candidate(base, n) && after[i].name !in NamesBefore(after, i)
      && Tried(base, n) <= NamesBefore(after, i);
    FirstCandidate(base);
    if n > 1 {
      assert Candidate(base, 1) in Tried(base, n);
      CandidatesDiffer(base, n, 1);
    }
    assert base in NamesBefore(after, i) <==> exists k :: 0 <= k < i && after[k].name == base;
  }

  lemma FirstCandidate(base: string)
    ensures Candidate(base, 1) == base
  {
  }

  /** A taken base name gets the lowest number from 2 on that makes it free: -2 first, then -3. */
  lemma NumberedFromTwo(base: string, seen: set<string>, name: string)
    requires FirstFree(name, base, seen)
    ensures base !in seen ==> name == base
    ensures base in seen && base + "-2" !in seen ==> name == base + "-2"
    ensures base in seen && base + "-2" in seen && base + "-3" !in seen ==> name == base + "-3"
  {
    hide Candidate;
    var n: nat :| 1 <= n && name == Candidate(base, n) && name !in seen && Tried(base, n) <= seen;
    FirstCandidates(base);
    assert n > 1 ==> Candidate(base, 1) in Tried(base, n);
    assert n > 2 ==> Candidate(base, 2) in Tried(base, n);
    assert n > 3 ==> Candidate(base, 3) in Tried(base, n);
  }

  lemma FirstCandidates(base: string)
    ensures Candidate(base, 1) == base && Candidate(base, 2) == base + "-2" && Candidate(base, 3) == base + "-3"
  {
    assert Itoa(2) == "2" && Itoa(3) == "3";
    assert base + "-" + "2" == base + "-2" && base + "-" + "3" == base + "-3";
  }

  /** An unnamed proxy is called after its kind, server and port; without kind or server, after its place, from 1. */
  lemma UnnamedBase(p: Proxy, idx: nat)
    requires p.name == "" && idx < MaxInt64
    ensures p.kind != "" && p.server != "" ==> BaseName(p, idx) == Join([p.kind, p.server, p.port], "-")
    ensures p.kind == "" || p.server == "" ==>
      var name := BaseName(p, idx); |name| > 6 && name[..6] == "proxy-" && ParseInt(name[6..]) == Parsed(idx + 1, true)
  {
    if p.kind == "" || p.server == "" {
      assert BaseName(p, idx) == "proxy-" + Itoa(idx + 1);
      assert ("proxy-" + Itoa(idx + 1))[6..] == Itoa(idx + 1);
      ParseItoa(idx + 1);
    } else {
      assert [p.kind, p.server, p.port][1..] == [p.server, p.port] && [p.server, p.port][1..] == [p.port];
      assert Join([p.server, p.port], "-") == p.server + "-" + p.port;
      assert p.kind + "-" + (p.server + "-" + p.port) == p.kind + "-" + p.server + "-" + p.port;
    }
  }
}
