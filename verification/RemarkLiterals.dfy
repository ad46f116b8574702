/**
 What happens to the literal text of a remark template when placeholders are removed
 (filterRemarkTemplate, internal/sub/remark_vars.go): the text next to a removed placeholder goes
 as far as the nearest one that stays, all other text stays.
 */
module RemarkLiterals {
  import opened Prelude
  import opened Text
  import opened RemarkTokens
  import opened RemarkFilter

  // ---- where placeholders are found -------------------------------------------------------

  function Shift(locs: seq<Loc>, n: nat): (r: seq<Loc>)
    ensures |r| == |locs| && forall i :: 0 <= i < |r| ==> r[i] == Loc(locs[i].start + n, locs[i].end + n)
  {
    seq(|locs|, i requires 0 <= i < |locs| => Loc(locs[i].start + n, locs[i].end + n))
  }

  lemma ShiftFirst(l: Loc, locs: seq<Loc>, n: nat)
    ensures Shift([l] + locs, n) == [Loc(l.start + n, l.end + n)] + Shift(locs, n)
  {
  }

  lemma FindHere(s: string, from: nat, n: nat)
    requires from < |s| && MatchLen(s[from..]) == n && n > 0
    ensures from + n <= |s| && FindAll(s, from) == [Loc(from, from + n)] + FindAll(s, from + n)
  {
    hide MatchLen;
  }

  lemma FindOn(s: string, from: nat)
    requires from <= |s|
    ensures from == |s| ==> FindAll(s, from) == []
    ensures from < |s| && MatchLen(s[from..]) == 0 ==> FindAll(s, from) == FindAll(s, from + 1)
  {
    hide MatchLen;
  }

  lemma ShiftNothing(n: nat)
    ensures Shift([], n) == []
  {
  }

  lemma {:induction false} FindAllShifted(p: string, v: string, from: nat)
    requires from <= |v|
    ensures FindAll(p + v, |p| + from) == Shift(FindAll(v, from), |p|)
    decreases |v| - from
  {
    hide MatchLen, Shift, FindAll;
    assert (p + v)[|p| + from..] == v[from..];
    FindOn(v, from);
    FindOn(p + v, |p| + from);
    ShiftNothing(|p|);
    if from < |v| {
      var n := MatchLen(v[from..]);
      if n > 0 {
        FindAllShifted(p, v, from + n);
        FindHere(v, from, n);
        FindHere(p + v, |p| + from, n);
        ShiftFirst(Loc(from, from + n), FindAll(v, from + n), |p|);
      } else {
        FindAllShifted(p, v, from + 1);
      }
    }
  }

  lemma {:induction false} FindAllBefore(u: string, t: string, v: string, from: nat)
    requires IsToken(t) && from <= |u|
    ensures FindAll(u + t + v, from) == FindAll(u, from) + FindAll(u + t + v, |u|)
    decreases |u| - from
  {
    hide MatchLen, IsToken;
    var s, w := u + t + v, u[from..];
    assert s[from..] == w + t + v == w + (t + v);
    if from < |u| {
      if MatchLen(w) > 0 {
        MatchOfPrefix(w, t + v);
        FindAllBefore(u, t, v, from + MatchLen(w));
      } else {
        if MatchLen(s[from..]) > 0 {
          NoOverlap(w, t, v);
          MatchWithin(w, t + v);
        }
        FindAllBefore(u, t, v, from + 1);
      }
    }
  }

  /** A placeholder is found where it stands, between those before and those after it. */
  lemma FindAllCut(u: string, t: string, v: string)
    requires IsToken(t)
    ensures FindAll(u + t + v, |u|) == [Loc(|u|, |u + t|)] + FindAll(u + t + v, |u + t|)
    ensures FindAll(u + t + v, |u + t|) == Shift(FindAll(v, 0), |u + t|)
    ensures FindAll(u + t + v, 0) == FindAll(u, 0) + [Loc(|u|, |u + t|)] + Shift(FindAll(v, 0), |u + t|)
  {
    hide Shift, FindAll, MatchLen, IsToken;
    var s := u + t + v;
    FindAllBefore(u, t, v, 0);
    FindAllShifted(u + t, v, 0);
    TokenIsLong(t);
    assert s[|u|..][..|t|] == t;
    MatchIs(s[|u|..], |t|);
    FindHere(s, |u|, |t|);
  }

  lemma NothingFound(s: string)
    ensures FindAll(s, 0) == [] <==> Tokens(s) == []
  {
    FirstMatch(s, 0);
    assert s[0..] == s;
  }

  // ---- what a run keeps ----------------------------------------------------------------------

  /** Cut at its end only: all text up to the last placeholder k stays. */
  lemma CutAtEnd(a: string, k: string, b: string)
    requires IsToken(k) && Tokens(b) == []
    ensures FindAll(a + k + b, 0) != [] && Span(a + k + b, false, true) == a + k
  {
    hide Shift, FindAll, IsToken, Tokens;
    FindAllCut(a, k, b);
    NothingFound(b);
    assert (a + k + b)[0..|a + k|] == a + k;
  }

  /** Cut at its start only: all text from the first placeholder m on stays. */
  lemma CutAtStart(c: string, m: string, e: string)
    requires IsToken(m) && Tokens(c) == []
    ensures FindAll(c + m + e, 0) != [] && Span(c + m + e, true, false) == m + e
  {
    hide Shift, FindAll, IsToken, Tokens;
    FindAllCut(c, m, e);
    NothingFound(c);
    assert (c + m + e)[|c|..|c + m + e|] == m + e;
  }

  /** Cut at both ends: what stays is the text from the first placeholder m to the last one k. */
  lemma CutAtBoth(c: string, kept: string, b: string, m: string, e: string, a: string, k: string)
    requires IsToken(m) && IsToken(k) && kept == m + e == a + k && Tokens(c) == [] && Tokens(b) == []
    ensures FindAll(c + kept + b, 0) != [] && Span(c + kept + b, true, true) == kept
  {
    hide Shift, FindAll, IsToken, Tokens;
    var run := c + kept + b;
    assert run == c + m + (e + b) && run == (c + a) + k + b;
    FindAllCut(c, m, e + b);
    FindAllCut(c + a, k, b);
    NothingFound(c);
    NothingFound(b);
    assert run[|c|..|c + kept|] == kept;
  }

  /** A run without placeholders goes as a whole. */
  lemma RunGoes(run: string, left: bool, right: bool)
    requires Tokens(run) == []
    ensures Kept(run, left, right) == []
  {
    hide FindAll, Tokens;
    NothingFound(run);
  }

  /** A run with one stays, trimmed. */
  lemma RunStays(run: string, left: bool, right: bool)
    requires FindAll(run, 0) != []
    ensures Kept(run, left, right) == [TrimSpace(Span(run, left, right))]
  {
    hide FindAll, Tokens, Span, TrimSpace;
    KeptKeepsTokens(run, left, right);
  }

  // ---- where a segment is divided ------------------------------------------------------------

  /** None of the placeholders of s is removed. */
  predicate AllStay(s: string, remove: set<string>) { RemarkFilter.Keep(Tokens(s), remove) == Tokens(s) }

  /** What is kept of the text after a removed placeholder. */
  function After(v: string, remove: set<string>): seq<string> {
    KeptRuns(v, FindAll(v, 0), 0, 0, true, remove)
  }

  lemma {:induction false} KeptRunsShifted(p: string, v: string, pos: nat, from: nat, left: bool, remove: set<string>)
    requires from <= pos <= |v|
    ensures KeptRuns(p + v, FindAll(p + v, |p| + pos), |p| + pos, |p| + from, left, remove)
      == KeptRuns(v, FindAll(v, pos), pos, from, left, remove)
    decreases |v| - pos
  {
    hide FindAll, Kept, IsToken, Tokens, NameOf, Shift;
    var s := p + v;
    FindAllShifted(p, v, pos);
    FirstMatch(v, pos);
    FirstMatch(s, |p| + pos);
    assert s[|p| + from..] == v[from..];
    if FindAll(v, pos) != [] {
      var l, m := FindAll(v, pos)[0], FindAll(s, |p| + pos)[0];
      assert s[m.start..m.end] == v[l.start..l.end] && s[|p| + from..m.start] == v[from..l.start];
      KeptRunsShifted(p, v, l.end, from, left, remove);
      KeptRunsShifted(p, v, l.end, l.end, true, remove);
    }
  }

  lemma StayOn(u: string, pos: nat, remove: set<string>)
    requires pos <= |u| && AllStay(u[pos..], remove) && FindAll(u, pos) != []
    ensures var l := FindAll(u, pos)[0];
      pos <= l.start < l.end <= |u| && IsToken(u[l.start..l.end]) && NameOf(u[l.start..l.end]) !in remove
      && AllStay(u[l.end..], remove)
  {
    hide FindAll, IsToken, Tokens, NameOf;
    FirstMatch(u, pos);
    var l := FindAll(u, pos)[0];
    StayNext(NameOf(u[l.start..l.end]), Tokens(u[l.end..]), remove);
  }

  lemma StayNext(name: string, rest: seq<string>, remove: set<string>)
    requires RemarkFilter.Keep([name] + rest, remove) == [name] + rest
    ensures name !in remove && RemarkFilter.Keep(rest, remove) == rest
  {
    assert ([name] + rest)[1..] == rest;
    KeepShorter(rest, remove);
  }

  lemma {:induction false} KeepShorter(names: seq<string>, remove: set<string>)
    ensures |RemarkFilter.Keep(names, remove)| <= |names|
  {
    if names != [] {
      KeepShorter(names[1..], remove);
    }
  }

  /** The first removed placeholder t ends the current run. */
  lemma {:induction false} DividedAt(u: string, t: string, v: string, pos: nat, left: bool, remove: set<string>)
    requires IsToken(t) && NameOf(t) in remove && pos <= |u| && AllStay(u[pos..], remove)
    ensures var s := u + t + v;
      KeptRuns(s, FindAll(s, pos), pos, 0, left, remove) == Kept(u, left, true) + After(v, remove)
    decreases |u| - pos
  {
    hide FindAll, Kept, IsToken, Tokens, AllStay, Shift;
    var s := u + t + v;
    FindAllBefore(u, t, v, pos);
    FirstMatch(s, pos);
    if FindAll(u, pos) == [] {
      FindAllCut(u, t, v);
      assert s[|u|..|u + t|] == t && s[0..|u|] == u;
      KeptRunsShifted(u + t, v, 0, 0, true, remove);
    } else {
      StayOn(u, pos, remove);
      var l := FindAll(u, pos)[0];
      assert FindAll(s, pos)[0] == l;
      assert s[l.start..l.end] == u[l.start..l.end];
      DividedAt(u, t, v, l.end, left, remove);
    }
  }

  /** The text after a removed placeholder: divided again at the next removed one. */
  lemma AfterDivides(u: string, t: string, v: string, remove: set<string>)
    requires AllStay(u, remove) && IsToken(t) && NameOf(t) in remove
    ensures After(u + t + v, remove) == Kept(u, true, true) + After(v, remove)
  {
    hide FindAll, Kept, IsToken, Tokens, KeptRuns;
    assert u[0..] == u;
    DividedAt(u, t, v, 0, true, remove);
  }

  lemma {:induction false} NoneToDivide(v: string, pos: nat, remove: set<string>)
    requires pos <= |v| && AllStay(v[pos..], remove)
    ensures KeptRuns(v, FindAll(v, pos), pos, 0, true, remove) == Kept(v, true, false)
    decreases |v| - pos
  {
    hide FindAll, Kept, IsToken, Tokens, AllStay;
    assert v[0..] == v;
    FirstMatch(v, pos);
    if FindAll(v, pos) != [] {
      StayOn(v, pos, remove);
      NoneToDivide(v, FindAll(v, pos)[0].end, remove);
    }
  }

  /** With no more of them, it is one run, cut at its start. */
  lemma AfterStays(v: string, remove: set<string>)
    requires AllStay(v, remove)
    ensures After(v, remove) == Kept(v, true, false)
  {
    hide FindAll, Kept, IsToken, Tokens, KeptRuns, AllStay;
    assert v[0..] == v;
    NoneToDivide(v, 0, remove);
  }

  /** A segment with a removed placeholder: the text before the first one, then what is kept after it. */
  lemma SegmentDivides(u: string, t: string, v: string, remove: set<string>)
    requires AllStay(u, remove) && IsToken(t) && NameOf(t) in remove
    ensures FilterSegment(u + t + v, remove) == Join(Kept(u, false, true) + After(v, remove), " ")
  {
    hide FindAll, Kept, IsToken, Tokens, KeptRuns, Join;
    var s := u + t + v;
    assert u[0..] == u && s[0..] == s;
    DividedAt(u, t, v, 0, false, remove);
    NoneRemoved(s, FindAll(s, 0), 0, remove);
    TokenCut(u, t, v);
    KeepLoses(Tokens(u), NameOf(t), Tokens(v), remove);
  }

  lemma KeepLoses(a: seq<string>, name: string, b: seq<string>, remove: set<string>)
    requires name in remove
    ensures RemarkFilter.Keep(a + [name] + b, remove) != a + [name] + b
  {
    KeepConcat(a + [name], b, remove);
    KeepConcat(a, [name], remove);
    KeepOne(name, remove);
    KeepShorter(a, remove);
    KeepShorter(b, remove);
  }

  // ---- one removal --------------------------------------------------------------------------

  /** Between two placeholders that stay, the removed one goes with the text on both sides of it. */
  lemma RemovedBetween(a: string, k: string, b: string, t: string, c: string, m: string, e: string,
                       remove: set<string>)
    requires IsToken(k) && IsToken(t) && IsToken(m) && Tokens(b) == [] && Tokens(c) == []
    requires AllStay(a + k + b, remove) && NameOf(t) in remove && AllStay(c + m + e, remove)
    ensures FilterSegment(a + k + b + t + (c + m + e), remove) == TrimSpace(a + k) + " " + TrimSpace(m + e)
  {
    hide FindAll, Kept, IsToken, Tokens, TrimSpace, AllStay, After, Span;
    SegmentDivides(a + k + b, t, c + m + e, remove);
    AfterStays(c + m + e, remove);
    CutAtEnd(a, k, b);
    CutAtStart(c, m, e);
    RunStays(a + k + b, false, true);
    RunStays(c + m + e, true, false);
    var x, y := TrimSpace(a + k), TrimSpace(m + e);
    assert [x] + [y] == [x, y] && [x, y][1..] == [y];
    assert Join([x, y], " ") == x + " " + y;
  }

  /** Before the first placeholder that stays, it goes with all text up to that one. */
  lemma RemovedFirst(u: string, t: string, c: string, m: string, e: string, remove: set<string>)
    requires IsToken(t) && IsToken(m) && Tokens(u) == [] && Tokens(c) == []
    requires NameOf(t) in remove && AllStay(c + m + e, remove)
    ensures FilterSegment(u + t + (c + m + e), remove) == TrimSpace(m + e)
  {
    hide FindAll, Kept, IsToken, Tokens, TrimSpace, After, Span, NameOf;
    NoneStay(remove);
    SegmentDivides(u, t, c + m + e, remove);
    AfterStays(c + m + e, remove);
    RunGoes(u, false, true);
    CutAtStart(c, m, e);
    RunStays(c + m + e, true, false);
    assert [] + [TrimSpace(m + e)] == [TrimSpace(m + e)];
  }

  /** After the last one that stays, it goes with all text from that one on. */
  lemma RemovedLast(a: string, k: string, b: string, t: string, v: string, remove: set<string>)
    requires IsToken(k) && IsToken(t) && Tokens(b) == [] && Tokens(v) == []
    requires AllStay(a + k + b, remove) && NameOf(t) in remove
    ensures FilterSegment(a + k + b + t + v, remove) == TrimSpace(a + k)
  {
    hide FindAll, Kept, IsToken, Tokens, TrimSpace, After, Span, NameOf;
    NoneStay(remove);
    SegmentDivides(a + k + b, t, v, remove);
    AfterStays(v, remove);
    RunGoes(v, true, false);
    CutAtEnd(a, k, b);
    RunStays(a + k + b, false, true);
    assert [TrimSpace(a + k)] + [] == [TrimSpace(a + k)];
  }

  lemma NoneStay(remove: set<string>)
    ensures RemarkFilter.Keep([], remove) == []
  {
  }

  // ---- segments ----------------------------------------------------------------------------

  /** Two segments: each filtered on its own, and the bar between them kept only when something is left of both. */
  lemma TwoSegments(a: string, b: string, remove: set<string>)
    requires '|' !in a && '|' !in b
    ensures var (x, y) := (FilterSegment(a, remove), FilterSegment(b, remove));
      FilterTemplate(a + "|" + b, remove) == if x == "" then y else if y == "" then x else x + "|" + y
  {
    hide FilterSegment, Split;
    assert a + ['|'] + b == a + "|" + b;
    SplitHead(a, '|', b);
    SplitHead(b, '|', "");
    var x, y := FilterSegment(a, remove), FilterSegment(b, remove);
    assert [a] + [b] == [a, b] && [a, b][..1] == [a] && [a][..0] == [];
    assert FilterSegments([a], remove) == [] + (if x != "" then [x] else []);
    assert [x, y][1..] == [y] && Join([x, y], "|") == x + "|" + y;
    assert [x] + [y] == [x, y] && [x] + [] == [x] && [] + [y] == [y];
  }

  /** A segment without removed placeholders is trimmed, and otherwise left as it is. */
  lemma NothingRemoved(seg: string, remove: set<string>)
    requires AllStay(seg, remove)
    ensures FilterSegment(seg, remove) == TrimSpace(seg)
  {
    hide Tokens, FindAll, TrimSpace, KeptRuns;
    assert seg[0..] == seg;
    NoneRemoved(seg, FindAll(seg, 0), 0, remove);
  }
}
