/**
 filterRemarkTemplate (internal/sub/remark_vars.go) removes a set of placeholders together with
 the decoration around them.  It is exact on placeholders and idempotent.
 */
module RemarkFilter {
  import opened Prelude
  import opened Text
  import opened RemarkTokens

  // ---- the filter ------------------------------------------------------------------

  function TokenAt(s: string, l: Loc): string
    requires l.start <= l.end <= |s| && IsToken(s[l.start..l.end])
  {
    NameOf(s[l.start..l.end])
  }

  /** Locations of placeholders in s, all at or after from. */
  predicate Locations(s: string, from: nat, locs: seq<Loc>) {
    from <= |s| && locs == FindAll(s, from)
  }

  /** A run cut back to its first and last placeholder, on the sides where its neighbour was removed. */
  function Span(run: string, leftRemoved: bool, rightRemoved: bool): string
    requires FindAll(run, 0) != []
  {
    LastMatch(run, 0);
    FirstMatch(run, 0);
    var locs := FindAll(run, 0);
    run[if leftRemoved then locs[0].start else 0..if rightRemoved then locs[|locs| - 1].end else |run|]
  }

  /** What is kept of a run: nothing without a placeholder, otherwise its trimmed span. */
  function Kept(run: string, leftRemoved: bool, rightRemoved: bool): seq<string> {
    if FindAll(run, 0) == [] then []
    else
      var frag := TrimSpace(Span(run, leftRemoved, rightRemoved));
      if frag != "" then [frag] else []
  }

  /** The runs between the removed placeholders at locs; from is where the current run began. */
  function KeptRuns(seg: string, locs: seq<Loc>, pos: nat, from: nat, left: bool, remove: set<string>): seq<string>
    requires Locations(seg, pos, locs) && from <= pos
    decreases |locs|
  {
    if locs == [] then Kept(seg[from..], left, false)
    else
      FirstMatch(seg, pos);
      var l := locs[0];
      if TokenAt(seg, l) !in remove then KeptRuns(seg, locs[1..], l.end, from, left, remove)
      else Kept(seg[from..l.start], left, true) + KeptRuns(seg, locs[1..], l.end, l.end, true, remove)
  }

  predicate NamesRemoved(seg: string, locs: seq<Loc>, pos: nat, remove: set<string>)
    requires Locations(seg, pos, locs)
    decreases |locs|
  {
    if locs == [] then false
    else
      FirstMatch(seg, pos);
      TokenAt(seg, locs[0]) in remove || NamesRemoved(seg, locs[1..], locs[0].end, remove)
  }

  function FilterSegment(seg: string, remove: set<string>): string {
    var locs := FindAll(seg, 0);
    if !NamesRemoved(seg, locs, 0, remove) then TrimSpace(seg)
    else Join(KeptRuns(seg, locs, 0, 0, false, remove), " ")
  }

  function FilterSegments(segments: seq<string>, remove: set<string>): seq<string> {
    if segments == [] then []
    else
      var out := FilterSegment(segments[|segments| - 1], remove);
      FilterSegments(segments[..|segments| - 1], remove) + (if out != "" then [out] else [])
  }

  function FilterTemplate(template: string, remove: set<string>): string {
    Join(FilterSegments(Split(template, '|'), remove), "|")
  }

  // The loops.

  method AppendKeptRun(runs: seq<string>, run: string, leftRemoved: bool, rightRemoved: bool) returns (out: seq<string>)
    ensures out == runs + Kept(run, leftRemoved, rightRemoved)
  {
    var locs := FindAll(run, 0);
    if |locs| == 0 {
      return runs;
    }
    LastMatch(run, 0);
    FirstMatch(run, 0);
    var start, end := 0, |run|;
    if leftRemoved {
      start := locs[0].start;
    }
    if rightRemoved {
      end := locs[|locs| - 1].end;
    }
    out := runs;
    var frag := TrimSpace(run[start..end]);
    if frag != "" {
      out := out + [frag];
    }
  }

  method HasRemoved(seg: string, locs: seq<Loc>, remove: set<string>) returns (has: bool)
    requires Locations(seg, 0, locs)
    ensures has <==> NamesRemoved(seg, locs, 0, remove)
  {
    hide FindAll;
    ghost var pos := 0;
    for i := 0 to |locs|
      invariant Locations(seg, pos, locs[i..])
      invariant NamesRemoved(seg, locs, 0, remove) <==> NamesRemoved(seg, locs[i..], pos, remove)
    {
      FirstMatch(seg, pos);
      var l := locs[i];
      assert locs[i..][0] == l && locs[i..][1..] == locs[i+1..];
      if TokenAt(seg, l) in remove {
        return true;
      }
      pos := l.end;
    }
    return false;
  }

  method FilterOneSegment(seg: string, remove: set<string>) returns (out: string)
    ensures out == FilterSegment(seg, remove)
  {
    hide FindAll, Kept, Tokens, MatchLen, TrimSpace, IsToken;
    var locs := FindAll(seg, 0);
    var hasRemove := HasRemoved(seg, locs, remove);
    if !hasRemove {
      return TrimSpace(seg);
    }
    var runs: seq<string> := [];
    var runStart: nat, leftRemoved := 0, false;
    ghost var pos: nat := 0;
    ghost var all := KeptRuns(seg, locs, 0, 0, false, remove);
    for i := 0 to |locs|
      invariant Locations(seg, pos, locs[i..]) && runStart <= pos
      invariant all == runs + KeptRuns(seg, locs[i..], pos, runStart, leftRemoved, remove)
    {
      FirstMatch(seg, pos);
      var l := locs[i];
      assert locs[i..][0] == l && locs[i..][1..] == locs[i+1..];
      pos := l.end;
      if TokenAt(seg, l) !in remove {
        continue;
      }
      runs := AppendKeptRun(runs, seg[runStart..l.start], leftRemoved, true);
      runStart, leftRemoved := l.end, true;
    }
    runs := AppendKeptRun(runs, seg[runStart..], leftRemoved, false);
    return Join(runs, " ");
  }

  method FilterRemarkTemplate(template: string, remove: set<string>) returns (out: string)
    ensures out == FilterTemplate(template, remove)
  {
    hide FilterSegment;
    var segments := Split(template, '|');
    var kept: seq<string> := [];
    for i := 0 to |segments|
      invariant kept == FilterSegments(segments[..i], remove)
    {
      assert segments[..i+1][..i] == segments[..i];
      var seg := FilterOneSegment(segments[i], remove);
      if seg != "" {
        kept := kept + [seg];
      }
    }
    assert segments[..|segments|] == segments;
    return Join(kept, "|");
  }

  // ---- what happens to the placeholders --------------------------------------------------

  /** The names that are not removed, in order. */
  function Keep(names: seq<string>, remove: set<string>): seq<string> {
    if names == [] then []
    else (if names[0] in remove then [] else [names[0]]) + Keep(names[1..], remove)
  }

  lemma {:induction false} KeepConcat(a: seq<string>, b: seq<string>, remove: set<string>)
    ensures Keep(a + b, remove) == Keep(a, remove) + Keep(b, remove)
  {
    if a == [] {
      assert a + b == b;
    } else {
      assert (a + b)[1..] == a[1..] + b;
      KeepConcat(a[1..], b, remove);
    }
  }

  function TokensOfAll(parts: seq<string>): seq<string> {
    if parts == [] then [] else Tokens(parts[0]) + TokensOfAll(parts[1..])
  }

  lemma {:induction false} TokensOfConcat(a: seq<string>, b: seq<string>)
    ensures TokensOfAll(a + b) == TokensOfAll(a) + TokensOfAll(b)
  {
    hide Tokens;
    if a == [] {
      assert a + b == b;
    } else {
      assert (a + b)[1..] == a[1..] + b;
      TokensOfConcat(a[1..], b);
    }
  }

  /** Joining with a separator keeps every placeholder and makes none. */
  lemma {:induction false} TokensOfJoin(parts: seq<string>, sep: char)
    requires !TokenChar(sep)
    ensures Tokens(Join(parts, [sep])) == TokensOfAll(parts)
  {
    hide Tokens, TokenChar;
    if |parts| == 0 {
      NothingHasNoTokens();
    } else if |parts| == 1 {
      assert parts[1..] == [];
    } else {
      TokensOfJoin(parts[1..], sep);
      TokensAround(parts[0], sep, Join(parts[1..], [sep]));
    }
  }

  lemma TokensOfSplit(s: string)
    ensures TokensOfAll(Split(s, '|')) == Tokens(s)
  {
    hide Tokens, Split;
    JoinSplit(s, '|');
    TokensOfJoin(Split(s, '|'), '|');
  }

  lemma SpanKeepsTokens(run: string, left: bool, right: bool)
    requires FindAll(run, 0) != []
    ensures Tokens(Span(run, left, right)) == Tokens(run) && Tokens(run) != []
  {
    hide Tokens, FindAll, IsToken;
    FirstMatch(run, 0);
    assert run[0..] == run;
    LastMatch(run, 0);
    var locs := FindAll(run, 0);
    var l, k := locs[0], locs[|locs| - 1];
    var cut := if right then run[..k.end] else run;
    CutEnd(run, k);
    assert cut == run[..|cut|];
    var start := if left then l.start else 0;
    CutStart(cut, l, start, run);
    assert Span(run, left, right) == cut[start..];
  }

  /** A kept run carries exactly the placeholders of the run. */
  lemma KeptKeepsTokens(run: string, left: bool, right: bool)
    ensures TokensOfAll(Kept(run, left, right)) == Tokens(run)
    ensures FindAll(run, 0) != [] ==> |Kept(run, left, right)| == 1
    ensures FindAll(run, 0) == [] ==> Kept(run, left, right) == []
  {
    hide Tokens, FindAll, IsToken, Span, TrimSpace;
    if FindAll(run, 0) == [] {
      FirstMatch(run, 0);
      assert run[0..] == run;
    } else {
      SpanKeepsTokens(run, left, right);
      TrimKeepsTokens(Span(run, left, right));
      NothingHasNoTokens();
      var frag := TrimSpace(Span(run, left, right));
      assert [frag][0] == frag && [frag][1..] == [];
      assert TokensOfAll([frag]) == Tokens(frag) + TokensOfAll([]);
    }
  }

  /** Dropping what follows the last placeholder keeps all of them. */
  lemma CutEnd(run: string, k: Loc)
    requires k.start < k.end <= |run| && IsToken(run[k.start..k.end]) && Tokens(run[k.end..]) == []
    ensures Tokens(run[..k.end]) == Tokens(run)
  {
    hide Tokens, IsToken;
    var u, t, v := run[..k.start], run[k.start..k.end], run[k.end..];
    assert run == u + t + v && run[..k.end] == u + t + "";
    TokenCut(u, t, v);
    TokenCut(u, t, "");
    NothingHasNoTokens();
  }

  /** Dropping what precedes the first placeholder keeps all of them. */
  lemma CutStart(cut: string, l: Loc, start: nat, run: string)
    requires l.start < l.end <= |run| && IsToken(run[l.start..l.end])
    requires Tokens(run) == [NameOf(run[l.start..l.end])] + Tokens(run[l.end..])
    requires l.end <= |cut| <= |run| && cut == run[..|cut|] && Tokens(cut) == Tokens(run)
    requires start == l.start || start == 0
    ensures Tokens(cut[start..]) == Tokens(run)
  {
    hide Tokens, IsToken;
    var u, t, v := run[..l.start], run[l.start..l.end], cut[l.end..];
    assert cut == u + t + v && cut[l.start..] == "" + t + v && run == u + t + run[l.end..];
    TokenCut(u, t, run[l.end..]);
    TokenCut(u, t, v);
    TokenCut("", t, v);
    NothingHasNoTokens();
  }

  /** pos is reached: the placeholders before it in the current run are all kept ones. */
  predicate Reached(seg: string, from: nat, pos: nat, remove: set<string>) {
    && from <= pos <= |seg|
    && Tokens(seg[from..]) == Tokens(seg[from..pos]) + Tokens(seg[pos..])
    && Keep(Tokens(seg[from..pos]), remove) == Tokens(seg[from..pos])
  }

  /** Splitting a text at one of its placeholders splits the names there. */
  lemma CutAtToken(seg: string, from: nat, l: Loc)
    requires from <= l.start < l.end <= |seg| && IsToken(seg[l.start..l.end])
    ensures Tokens(seg[from..l.end]) == Tokens(seg[from..l.start]) + [TokenAt(seg, l)]
    ensures Tokens(seg[from..]) == Tokens(seg[from..l.start]) + [TokenAt(seg, l)] + Tokens(seg[l.end..])
  {
    hide Tokens, IsToken;
    var u, t, v := seg[from..l.start], seg[l.start..l.end], seg[l.end..];
    assert seg[from..] == u + t + v && seg[from..l.end] == u + t + "";
    TokenCut(u, t, v);
    TokenCut(u, t, "");
    NothingHasNoTokens();
  }

  lemma EmptyReached(seg: string, at: nat, remove: set<string>)
    requires at <= |seg|
    ensures Reached(seg, at, at, remove)
  {
    hide Tokens;
    NothingHasNoTokens();
    assert seg[at..at] == "";
  }

  /** Going on past the next placeholder. */
  lemma PassToken(seg: string, from: nat, pos: nat, l: Loc, remove: set<string>)
    requires Reached(seg, from, pos, remove)
    requires pos <= l.start < l.end <= |seg| && IsToken(seg[l.start..l.end])
    requires Tokens(seg[pos..]) == [TokenAt(seg, l)] + Tokens(seg[l.end..])
    ensures Tokens(seg[from..l.start]) == Tokens(seg[from..pos])
    ensures TokenAt(seg, l) !in remove ==> Reached(seg, from, l.end, remove)
  {
    hide Tokens, IsToken;
    CutAtToken(seg, from, l);
    var x, y, name := Tokens(seg[from..pos]), Tokens(seg[from..l.start]), TokenAt(seg, l);
    var rest := Tokens(seg[l.end..]);
    assert x + ([name] + rest) == y + [name] + rest == y + ([name] + rest);
    SameFront(x, y, [name] + rest);
    KeepConcat(y, [name], remove);
    KeepOne(name, remove);
  }

  lemma ReachedBounds(seg: string, from: nat, pos: nat, remove: set<string>)
    requires Reached(seg, from, pos, remove)
    ensures from <= pos <= |seg|
    ensures Tokens(seg[from..]) == Tokens(seg[from..pos]) + Tokens(seg[pos..])
    ensures Keep(Tokens(seg[from..pos]), remove) == Tokens(seg[from..pos])
  {
  }

  lemma SameFront(x: seq<string>, y: seq<string>, tail: seq<string>)
    requires x + tail == y + tail
    ensures x == y
  {
    assert |x + tail| == |x| + |tail| && |y + tail| == |y| + |tail|;
    assert x == (x + tail)[..|x|] && y == (y + tail)[..|y|];
  }

  lemma KeepOne(name: string, remove: set<string>)
    ensures Keep([name], remove) == if name in remove then [] else [name]
  {
    assert [name][1..] == [];
  }

  lemma KeepAcross(a: seq<string>, name: string, b: seq<string>, remove: set<string>)
    requires name in remove && Keep(a, remove) == a
    ensures Keep(a + [name] + b, remove) == a + Keep(b, remove)
  {
    KeepConcat(a + [name], b, remove);
    KeepConcat(a, [name], remove);
    KeepOne(name, remove);
    assert a + [] == a;
  }

  /** The kept runs of a segment carry the placeholders that are not removed, in order. */
  lemma {:induction false} KeptRunsTokens(seg: string, locs: seq<Loc>, pos: nat, from: nat, left: bool,
                                          remove: set<string>)
    requires Locations(seg, pos, locs) && Reached(seg, from, pos, remove)
    ensures TokensOfAll(KeptRuns(seg, locs, pos, from, left, remove)) == Keep(Tokens(seg[from..]), remove)
    decreases |locs|
  {
    hide Tokens, IsToken, Kept, FindAll, Reached, Keep, NameOf;
    ReachedBounds(seg, from, pos, remove);
    FirstMatch(seg, pos);
    if locs == [] {
      KeptKeepsTokens(seg[from..], left, false);
      assert Tokens(seg[from..]) == Tokens(seg[from..pos]) + [] == Tokens(seg[from..pos]);
    } else {
      var l := locs[0];
      PassToken(seg, from, pos, l, remove);
      CutAtToken(seg, from, l);
      EmptyReached(seg, l.end, remove);
      if TokenAt(seg, l) !in remove {
        KeptRunsTokens(seg, locs[1..], l.end, from, left, remove);
      } else {
        KeptKeepsTokens(seg[from..l.start], left, true);
        KeptRunsTokens(seg, locs[1..], l.end, l.end, true, remove);
        TokensOfConcat(Kept(seg[from..l.start], left, true), KeptRuns(seg, locs[1..], l.end, l.end, true, remove));
        KeepAcross(Tokens(seg[from..l.start]), TokenAt(seg, l), Tokens(seg[l.end..]), remove);
      }
    }
  }

  lemma {:induction false} NoneRemoved(seg: string, locs: seq<Loc>, pos: nat, remove: set<string>)
    requires Locations(seg, pos, locs)
    ensures NamesRemoved(seg, locs, pos, remove) <==> Keep(Tokens(seg[pos..]), remove) != Tokens(seg[pos..])
    ensures |Keep(Tokens(seg[pos..]), remove)| <= |Tokens(seg[pos..])|
    decreases |locs|
  {
    hide Tokens, IsToken, FindAll;
    FirstMatch(seg, pos);
    if locs != [] {
      var l := locs[0];
      var name, rest := TokenAt(seg, l), Tokens(seg[l.end..]);
      NoneRemoved(seg, locs[1..], l.end, remove);
      KeepConcat([name], rest, remove);
      KeepOne(name, remove);
      assert ([name] + rest)[1..] == rest && ([name] + Keep(rest, remove))[1..] == Keep(rest, remove);
    }
  }

  /** One segment keeps exactly the placeholders that are not removed. */
  lemma SegmentTokens(seg: string, remove: set<string>)
    ensures Tokens(FilterSegment(seg, remove)) == Keep(Tokens(seg), remove)
  {
    hide Tokens, FindAll, KeptRuns, TrimSpace, Join, TokenChar, Reached;
    assert seg[0..] == seg;
    NoneRemoved(seg, FindAll(seg, 0), 0, remove);
    TrimKeepsTokens(seg);
    EmptyReached(seg, 0, remove);
    KeptRunsTokens(seg, FindAll(seg, 0), 0, 0, false, remove);
    SpaceIsNoToken(' ');
    TokensOfJoin(KeptRuns(seg, FindAll(seg, 0), 0, 0, false, remove), ' ');
  }

  lemma {:induction false} SegmentsTokens(segments: seq<string>, remove: set<string>)
    ensures TokensOfAll(FilterSegments(segments, remove)) == Keep(TokensOfAll(segments), remove)
  {
    hide Tokens, FilterSegment;
    if segments != [] {
      var n := |segments| - 1;
      var out := FilterSegment(segments[n], remove);
      SegmentsTokens(segments[..n], remove);
      SegmentTokens(segments[n], remove);
      NothingHasNoTokens();
      assert segments == segments[..n] + [segments[n]];
      TokensOfConcat(segments[..n], [segments[n]]);
      TokensOfOne(segments[n]);
      TokensOfOne(out);
      TokensOfConcat(FilterSegments(segments[..n], remove), if out != "" then [out] else []);
      KeepConcat(TokensOfAll(segments[..n]), Tokens(segments[n]), remove);
    }
  }

  lemma TokensOfOne(s: string)
    ensures TokensOfAll([s]) == Tokens(s)
  {
    hide Tokens;
    assert [s][1..] == [];
  }

  /** Filtering deletes the removed placeholders, loses no other, and forms no new one. */
  lemma FilterIsExact(template: string, remove: set<string>)
    ensures Tokens(FilterTemplate(template, remove)) == Keep(Tokens(template), remove)
  {
    hide Tokens, Split, Join, FilterSegments, TokensOfAll, Keep;
    TokensOfSplit(template);
    SegmentsTokens(Split(template, '|'), remove);
    TokensOfJoin(FilterSegments(Split(template, '|'), remove), '|');
  }

  // ---- filtering twice ------------------------------------------------------------------------

  lemma {:induction false} KeepTwice(names: seq<string>, remove: set<string>)
    ensures Keep(Keep(names, remove), remove) == Keep(names, remove)
  {
    if names != [] {
      KeepTwice(names[1..], remove);
      KeepConcat(if names[0] in remove then [] else [names[0]], Keep(names[1..], remove), remove);
      KeepOne(names[0], remove);
    }
  }

  /** A segment left by the filter holds nothing to remove, and is trimmed already. */
  lemma SegmentTwice(seg: string, remove: set<string>)
    ensures FilterSegment(FilterSegment(seg, remove), remove) == FilterSegment(seg, remove)
  {
    hide Tokens, FindAll, KeptRuns, TrimSpace, Join, NamesRemoved;
    var out := FilterSegment(seg, remove);
    SegmentTokens(seg, remove);
    KeepTwice(Tokens(seg), remove);
    NoneRemoved(out, FindAll(out, 0), 0, remove);
    assert out[0..] == out;
    SegmentIsTight(seg, remove);
    TightTrims(out);
  }

  ghost predicate AllTight(parts: seq<string>) {
    forall i :: 0 <= i < |parts| ==> parts[i] != "" && Tight(parts[i])
  }

  /** No part holds the segment separator. */
  predicate NoBars(parts: seq<string>) {
    forall i :: 0 <= i < |parts| ==> '|' !in parts[i]
  }

  lemma AllConcat(a: seq<string>, b: seq<string>)
    ensures AllTight(a) && AllTight(b) ==> AllTight(a + b)
    ensures NoBars(a) && NoBars(b) ==> NoBars(a + b)
  {
    hide Tight;
  }

  lemma KeptIsTight(run: string, left: bool, right: bool)
    ensures AllTight(Kept(run, left, right))
    ensures '|' !in run ==> NoBars(Kept(run, left, right))
  {
    hide FindAll, IsToken, TrimSpace, IsSpace, Span;
    if FindAll(run, 0) != [] {
      var span := Span(run, left, right);
      TrimIsTight(span);
      var i, j := TrimShape(span);
      SpanOfRun(run, left, right);
      PieceHas(span, i, j, '|');
    }
  }

  lemma PieceHas(s: string, i: nat, j: nat, c: char)
    requires i <= j <= |s|
    ensures c in s[i..j] ==> c in s
  {
  }

  lemma SpanOfRun(run: string, left: bool, right: bool)
    requires FindAll(run, 0) != []
    ensures '|' in Span(run, left, right) ==> '|' in run
  {
    hide FindAll, IsToken;
    LastMatch(run, 0);
    FirstMatch(run, 0);
    var locs := FindAll(run, 0);
    PieceHas(run, if left then locs[0].start else 0, if right then locs[|locs| - 1].end else |run|, '|');
  }

  lemma {:induction false} KeptRunsTight(seg: string, locs: seq<Loc>, pos: nat, from: nat, left: bool,
                                         remove: set<string>)
    requires Locations(seg, pos, locs) && from <= pos
    ensures AllTight(KeptRuns(seg, locs, pos, from, left, remove))
    ensures '|' !in seg ==> NoBars(KeptRuns(seg, locs, pos, from, left, remove))
    decreases |locs|
  {
    hide IsToken, Kept, FindAll, Tight, Tokens, AllTight, NoBars;
    if locs == [] {
      KeptIsTight(seg[from..], left, false);
    } else {
      FirstMatch(seg, pos);
      var l := locs[0];
      if TokenAt(seg, l) !in remove {
        KeptRunsTight(seg, locs[1..], l.end, from, left, remove);
      } else {
        KeptIsTight(seg[from..l.start], left, true);
        KeptRunsTight(seg, locs[1..], l.end, l.end, true, remove);
        AllConcat(Kept(seg[from..l.start], left, true), KeptRuns(seg, locs[1..], l.end, l.end, true, remove));
      }
    }
  }

  lemma {:induction false} JoinIsTight(parts: seq<string>)
    requires AllTight(parts)
    ensures var text := Join(parts, " ");
      if parts == [] then text == ""
      else text != "" && !IsSpace(text[0]) && !IsSpace(text[|text| - 1])
  {
    hide IsSpace;
    if |parts| > 1 {
      JoinIsTight(parts[1..]);
      var rest := Join(parts[1..], " ");
      var text := parts[0] + " " + rest;
      assert text[0] == parts[0][0] && text[|text| - 1] == rest[|rest| - 1];
    }
  }

  lemma {:induction false} JoinHasNoBar(parts: seq<string>)
    requires NoBars(parts)
    ensures '|' !in Join(parts, " ")
  {
    if |parts| > 1 {
      JoinHasNoBar(parts[1..]);
      assert Join(parts, " ") == parts[0] + " " + Join(parts[1..], " ");
    }
  }

  lemma SegmentIsTight(seg: string, remove: set<string>)
    ensures Tight(FilterSegment(seg, remove))
  {
    hide FindAll, KeptRuns, TrimSpace, Join, NamesRemoved, IsSpace;
    TrimIsTight(seg);
    KeptRunsTight(seg, FindAll(seg, 0), 0, 0, false, remove);
    JoinIsTight(KeptRuns(seg, FindAll(seg, 0), 0, 0, false, remove));
  }

  lemma SegmentHasNoBar(seg: string, remove: set<string>)
    requires '|' !in seg
    ensures '|' !in FilterSegment(seg, remove)
  {
    hide FindAll, KeptRuns, TrimSpace, Join, NamesRemoved, IsSpace;
    var i, j := TrimShape(seg);
    KeptRunsTight(seg, FindAll(seg, 0), 0, 0, false, remove);
    JoinHasNoBar(KeptRuns(seg, FindAll(seg, 0), 0, 0, false, remove));
  }

  /** Segments the filter returns unchanged. */
  predicate Filtered(segments: seq<string>, remove: set<string>) {
    forall i :: 0 <= i < |segments| ==>
      segments[i] != "" && '|' !in segments[i] && FilterSegment(segments[i], remove) == segments[i]
  }

  lemma {:induction false} SegmentsFiltered(segments: seq<string>, remove: set<string>)
    requires NoBars(segments)
    ensures Filtered(FilterSegments(segments, remove), remove)
  {
    hide FilterSegment;
    if segments != [] {
      var n := |segments| - 1;
      SegmentsFiltered(segments[..n], remove);
      SegmentTwice(segments[n], remove);
      SegmentHasNoBar(segments[n], remove);
    }
  }

  lemma {:induction false} FilteredStays(segments: seq<string>, remove: set<string>)
    requires Filtered(segments, remove)
    ensures FilterSegments(segments, remove) == segments
  {
    hide FilterSegment;
    if segments != [] {
      FilteredStays(segments[..|segments| - 1], remove);
    }
  }

  lemma EmptyTemplate(remove: set<string>)
    ensures FilterTemplate("", remove) == ""
  {
    BlankTrims("");
    assert Split("", '|') == [""];
    assert FilterSegment("", remove) == "";
    assert [""][..0] == [];
    assert FilterSegments([""], remove) == FilterSegments([], remove) + [];
  }

  /** Filtering twice is filtering once. */
  lemma FilterTwice(template: string, remove: set<string>)
    ensures FilterTemplate(FilterTemplate(template, remove), remove) == FilterTemplate(template, remove)
  {
    hide FilterSegments, Split, Join, FilterSegment;
    var segments := FilterSegments(Split(template, '|'), remove);
    SplitPartsClean(template, '|');
    SegmentsFiltered(Split(template, '|'), remove);
    if segments == [] {
      NothingJoins();
      EmptyTemplate(remove);
    } else {
      SplitJoin(segments, '|');
      FilteredStays(segments, remove);
    }
  }

  lemma NothingJoins()
    ensures Join([], "|") == ""
  {
  }
}
