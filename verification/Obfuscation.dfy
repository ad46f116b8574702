/**
 AmneziaWG obfuscation parameters (internal/awg/obfuscation.go): the generator, for any random
 draws in range, always satisfies the separately written validator.
 */
module Obfuscation {
  import opened Prelude
  import opened Text

  const MaxHeader := 2_147_483_647

  datatype Params = Params(
    jc: int, jmin: int, jmax: int, s1: int, s2: int, s3: int, s4: int,
    h1: string, h2: string, h3: string, h4: string,
    i1: string, i2: string, i3: string, i4: string, i5: string)

  // ---- the validator ---------------------------------------------------------------

  datatype Span = Span(lo: int, hi: int)

  predicate UniqueInts(values: seq<int>) {
    forall i, j :: 0 <= i < j < |values| ==> values[i] != values[j]
  }

  method CheckUniqueInts(values: seq<int>) returns (ok: bool)
    ensures ok <==> UniqueInts(values)
  {
    var seen: set<int> := {};
    for i := 0 to |values|
      invariant seen == set k | 0 <= k < i :: values[k]
      invariant UniqueInts(values[..i])
    {
      if values[i] in seen {
        var k :| 0 <= k < i && values[k] == values[i];
        return false;
      }
      seen := seen + {values[i]};
      assert forall a, b :: 0 <= a < b < i ==> values[..i][a] != values[..i][b];
    }
    assert values[..|values|] == values;
    return true;
  }

  /** The padded control packet sizes must differ. */
  predicate PaddingClash(s1: int, s2: int, s3: int) {
    s1 + 148 == s2 + 92 || s3 + 64 == s1 + 148 || s3 + 64 == s2 + 92
  }

  /** headerBounds: a single value or lo-hi. */
  function HeaderBounds(value: string): Option<Span> {
    var v := TrimSpace(value);
    match Cut(v, '-')
    case Some((a, b)) =>
      var lo, hi := ParseInt(TrimSpace(a)), ParseInt(TrimSpace(b));
      if lo.ok && hi.ok then Some(Span(lo.value, hi.value)) else None
    case None =>
      var n := ParseInt(v);
      if n.ok then Some(Span(n.value, n.value)) else None
  }

  /** validateHeaderRange. */
  predicate ValidHeaderRange(value: string) {
    TrimSpace(value) != ""
    && match HeaderBounds(value)
       case Some(s) => s.lo <= s.hi && 0 <= s.lo && s.hi <= MaxHeader
       case None => false
  }

  predicate RangesOverlap(a: Span, b: Span) { a.lo <= b.hi && b.lo <= a.hi }

  predicate Disjoint(headers: seq<string>) {
    && (forall i :: 0 <= i < |headers| ==> HeaderBounds(headers[i]).Some?)
    && (forall i, j :: 0 <= i < j < |headers| ==>
          !RangesOverlap(HeaderBounds(headers[i]).value, HeaderBounds(headers[j]).value))
  }

  method ValidateHeadersDisjoint(headers: seq<string>) returns (ok: bool)
    ensures ok <==> Disjoint(headers)
  {
    hide HeaderBounds, RangesOverlap;
    var parsed: seq<Span> := [];
    for i := 0 to |headers|
      invariant |parsed| == i && forall k :: 0 <= k < i ==> HeaderBounds(headers[k]) == Some(parsed[k])
    {
      var bounds := HeaderBounds(headers[i]);
      if bounds.None? {
        return false;
      }
      parsed := parsed + [bounds.value];
    }
    for i := 0 to |parsed|
      invariant forall a, b :: 0 <= a < i && a < b < |parsed| ==> !RangesOverlap(parsed[a], parsed[b])
    {
      for j := i + 1 to |parsed|
        invariant forall b :: i < b < j ==> !RangesOverlap(parsed[i], parsed[b])
      {
        if RangesOverlap(parsed[i], parsed[j]) {
          assert HeaderBounds(headers[i]).Some? && HeaderBounds(headers[j]).Some?;
          return false;
        }
      }
    }
    return true;
  }

  predicate Unset(s: string) { TrimSpace(s) == "" }

  /** What ValidateObfuscationParams accepts. */
  predicate Valid(p: Params) {
    && 0 <= p.jc <= 10 && 64 <= p.jmin <= 1024 && 64 <= p.jmax <= 1024 && p.jmin <= p.jmax
    && 0 <= p.s1 <= 64 && 0 <= p.s2 <= 64 && 0 <= p.s3 <= 64 && 0 <= p.s4 <= 32
    && UniqueInts([p.s1, p.s2, p.s3, p.s4]) && !PaddingClash(p.s1, p.s2, p.s3)
    && ValidHeaderRange(p.h1) && ValidHeaderRange(p.h2) && ValidHeaderRange(p.h3) && ValidHeaderRange(p.h4)
    && Disjoint([p.h1, p.h2, p.h3, p.h4])
    && (Unset(p.i1) || !(Unset(p.i2) || Unset(p.i3) || Unset(p.i4) || Unset(p.i5)))
  }

  method ValidateObfuscationParams(p: Params) returns (ok: bool)
    ensures ok <==> Valid(p)
  {
    hide ValidHeaderRange, Disjoint, UniqueInts;
    if p.jc < 0 || p.jc > 10 || p.jmin < 64 || p.jmin > 1024 || p.jmax < 64 || p.jmax > 1024 || p.jmin > p.jmax {
      return false;
    }
    var paddings := [p.s1, p.s2, p.s3];
    for i := 0 to 3
      invariant forall k :: 0 <= k < i ==> 0 <= paddings[k] <= 64
    {
      if paddings[i] < 0 || paddings[i] > 64 {
        return false;
      }
    }
    assert 0 <= paddings[0] <= 64 && 0 <= paddings[1] <= 64 && 0 <= paddings[2] <= 64;
    if p.s4 < 0 || p.s4 > 32 {
      return false;
    }
    var unique := CheckUniqueInts([p.s1, p.s2, p.s3, p.s4]);
    if !unique || PaddingClash(p.s1, p.s2, p.s3) {
      return false;
    }
    if !ValidHeaderRange(p.h1) || !ValidHeaderRange(p.h2) || !ValidHeaderRange(p.h3) || !ValidHeaderRange(p.h4) {
      return false;
    }
    var disjoint := ValidateHeadersDisjoint([p.h1, p.h2, p.h3, p.h4]);
    if !disjoint {
      return false;
    }
    if TrimSpace(p.i1) == "" {
      return true;
    }
    return TrimSpace(p.i2) != "" && TrimSpace(p.i3) != "" && TrimSpace(p.i4) != "" && TrimSpace(p.i5) != "";
  }

  // ---- what counts as unprovisioned ------------------------------------------------------

  predicate IsWeakHeader(value: string) {
    var v := TrimSpace(value);
    v == "" || ('-' !in v && ParseInt(v).ok && 1 <= ParseInt(v).value <= 4)
  }

  predicate NeedsProvision(p: Params) {
    || p.jc <= 0 || p.jmin <= 0 || p.jmax <= 0
    || (p.s1 <= 0 && p.s2 <= 0 && p.s3 <= 0 && p.s4 <= 0)
    || IsWeakHeader(p.h1) || IsWeakHeader(p.h2) || IsWeakHeader(p.h3) || IsWeakHeader(p.h4)
    || Unset(p.i1) || Unset(p.i2) || Unset(p.i3) || Unset(p.i4) || Unset(p.i5)
  }

  // ---- the generator ------------------------------------------------------------------------

  /** One round of the padding loop. */
  datatype Paddings = Paddings(s1: nat, s2: nat, s3: nat, s4: nat)

  predicate PaddingsInRange(d: Paddings) { d.s1 < 49 && d.s2 < 49 && d.s3 < 54 && d.s4 < 15 }

  predicate Accepted(d: Paddings) {
    var s1, s2, s3, s4 := 15 + d.s1, 15 + d.s2, 10 + d.s3, 1 + d.s4;
    UniqueInts([s1, s2, s3, s4]) && !PaddingClash(s1, s2, s3)
  }

  /** The draws for the four headers; restarts is what a wrap-around would draw. */
  datatype HeaderDraws = HeaderDraws(base: nat, widths: seq<nat>, gaps: seq<nat>, restarts: seq<nat>, swaps: seq<nat>)

  predicate HeadersInRange(d: HeaderDraws) {
    && d.base < 50_000_000 && |d.widths| == |d.gaps| == |d.restarts| == |d.swaps| == 4
    && (forall i :: 0 <= i < 4 ==> d.widths[i] < 100_000_000)
    && (forall i :: 0 <= i < 4 ==> d.gaps[i] < 20_000_000)
    && (forall i :: 0 <= i < 4 ==> d.restarts[i] < 50_000_000)
    && (forall i :: 0 <= i < 4 ==> d.swaps[i] <= i)
  }

  function RangeText(s: Span): string
    requires 0 <= s.lo && 0 <= s.hi
  {
    Itoa(s.lo) + "-" + Itoa(s.hi)
  }

  /** Four spans inside the header space, each ending before the next begins. */
  predicate Separated(spans: seq<Span>) {
    && (forall i :: 0 <= i < |spans| ==> 5 <= spans[i].lo <= spans[i].hi <= MaxHeader)
    && (forall i, j :: 0 <= i < j < |spans| ==> spans[i].hi < spans[j].lo)
  }

  /** order is a reordering of 0..n. */
  predicate Reorders(order: seq<nat>, n: nat) {
    && |order| == n && (forall i :: 0 <= i < n ==> order[i] < n)
    && (forall i, j :: 0 <= i < j < n ==> order[i] != order[j])
  }

  function Swapped(order: seq<nat>, i: nat, j: nat): seq<nat>
    requires i < |order| && j < |order|
  {
    order[i := order[j]][j := order[i]]
  }

  lemma SwapReorders(order: seq<nat>, n: nat, i: nat, j: nat)
    requires Reorders(order, n) && i < |order| && j < |order|
    ensures Reorders(Swapped(order, i, j), n)
  {
  }

  lemma IdentityReorders(n: nat)
    ensures Reorders(seq(n, i requires 0 <= i < n => i), n)
  {
  }

  /** Where each value came from once the positions from the last down to `from` have been swapped. */
  function ShuffledOrder(swaps: seq<nat>, from: nat): (order: seq<nat>)
    requires forall i :: 0 <= i < |swaps| ==> swaps[i] <= i
    ensures Reorders(order, |swaps|)
    decreases |swaps| - from
  {
    if from >= |swaps| then
      IdentityReorders(|swaps|);
      seq(|swaps|, i requires 0 <= i < |swaps| => i)
    else
      var later := ShuffledOrder(swaps, from + 1);
      SwapReorders(later, |swaps|, from, swaps[from]);
      Swapped(later, from, swaps[from])
  }

  /** Swaps each position with an earlier or equal one, from the back. */
  method ShuffleStrings(values: array<string>, swaps: seq<nat>)
    requires |swaps| == values.Length && forall i :: 0 <= i < |swaps| ==> swaps[i] <= i
    modifies values
    ensures forall i :: 0 <= i < values.Length ==> values[i] == old(values[ShuffledOrder(swaps, 1)[i]])
  {
    hide Reorders, ShuffledOrder;
    var n := values.Length;
    ghost var order := ShuffledOrder(swaps, n);
    OrderInside(swaps, n);
    if n == 0 {
      return;
    }
    var i := n - 1;
    while i > 0
      invariant 0 <= i < n && order == ShuffledOrder(swaps, i + 1)
      invariant |order| == n && forall k :: 0 <= k < n ==> order[k] < n
      invariant forall k :: 0 <= k < n ==> values[k] == old(values[order[k]])
    {
      var j := swaps[i];
      OrderStep(swaps, i);
      ghost var before := values[..];
      values[i], values[j] := values[j], values[i];
      order := Swapped(order, i, j);
      forall k | 0 <= k < n
        ensures order[k] < n && values[k] == old(values[order[k]])
      {
        assert before[i] == values[j] && before[j] == values[i];
      }
      i := i - 1;
    }
  }

  lemma OrderInside(swaps: seq<nat>, from: nat)
    requires forall i :: 0 <= i < |swaps| ==> swaps[i] <= i
    ensures |ShuffledOrder(swaps, from)| == |swaps|
    ensures forall x :: x in ShuffledOrder(swaps, from) ==> x < |swaps|
    ensures from >= |swaps| ==> ShuffledOrder(swaps, from) == seq(|swaps|, i requires 0 <= i < |swaps| => i)
  {
  }

  lemma OrderStep(swaps: seq<nat>, i: nat)
    requires forall k :: 0 <= k < |swaps| ==> swaps[k] <= k
    requires i < |swaps| == |ShuffledOrder(swaps, i + 1)|
    ensures ShuffledOrder(swaps, i) == Swapped(ShuffledOrder(swaps, i + 1), i, swaps[i])
  {
  }

  /** The i-th drawn range: its drawn width, and its drawn gap after the one before. */
  function SpanAt(d: HeaderDraws, i: nat): (s: Span)
    requires HeadersInRange(d) && i < 4
    ensures 5 <= s.lo <= s.hi <= 349_999_998 + i * 179_999_998
  {
    var lo := if i == 0 then 150_000_000 + d.base else SpanAt(d, i - 1).hi + 10_000_000 + d.gaps[i - 1];
    Span(lo, lo + 50_000_000 + d.widths[i])
  }

  function Spans(d: HeaderDraws): seq<Span>
    requires HeadersInRange(d)
  {
    seq(4, i requires 0 <= i < 4 => SpanAt(d, i))
  }

  lemma SpanFollows(d: HeaderDraws, i: nat)
    requires HeadersInRange(d) && i < 3
    ensures SpanAt(d, i).hi < SpanAt(d, i + 1).lo
  {
  }

  /** The drawn ranges lie in the header space, each before the next. */
  lemma SpansAreSeparated(d: HeaderDraws)
    requires HeadersInRange(d)
    ensures Separated(Spans(d))
  {
    hide SpanAt;
    SpanFollows(d, 0);
    SpanFollows(d, 1);
    SpanFollows(d, 2);
  }

  /** Four consecutive ranges from current on; neither the clamp nor the wrap-around is ever taken. */
  method FillRanges(d: HeaderDraws, ranges: array<string>)
    requires HeadersInRange(d) && ranges.Length == 4
    modifies ranges
    ensures forall i :: 0 <= i < 4 ==> ranges[i] == RangeText(SpanAt(d, i))
  {
    hide RangeText;
    var current: int := 150_000_000 + d.base;
    for i := 0 to 4
      invariant i < 4 ==> current == SpanAt(d, i).lo
      invariant forall k :: 0 <= k < i ==> ranges[k] == RangeText(SpanAt(d, k))
    {
      var start := current;
      var end: int := start + 50_000_000 + d.widths[i];
      assert Span(start, end) == SpanAt(d, i) && end <= MaxHeader;
      if end > MaxHeader {
        end := MaxHeader;
      }
      ranges[i] := RangeText(Span(start, end));
      var gap := 10_000_000 + d.gaps[i];
      var restart := 150_000_000 + d.restarts[i];
      current := end + gap;
      assert current <= MaxHeader - 100_000_000;
      if current > MaxHeader - 100_000_000 {
        current := restart;
      }
    }
  }

  /** headers[i] is the text of spans[order[i]]. */
  predicate TextsOf(headers: seq<string>, spans: seq<Span>, order: seq<nat>) {
    && |headers| == |spans| == |order| && Separated(spans) && Reorders(order, |spans|)
    && forall i :: 0 <= i < |headers| ==> headers[i] == RangeText(spans[order[i]])
  }

  /** The texts of the drawn ranges, in the drawn order. */
  function HeaderTexts(d: HeaderDraws): (headers: seq<string>)
    requires HeadersInRange(d)
    ensures |headers| == 4 && TextsOf(headers, Spans(d), ShuffledOrder(d.swaps, 1))
  {
    SpansAreSeparated(d);
    var order := ShuffledOrder(d.swaps, 1);
    seq(4, i requires 0 <= i < 4 => RangeText(SpanAt(d, order[i])))
  }

  method GenerateHeaderRanges(d: HeaderDraws) returns (h1: string, h2: string, h3: string, h4: string)
    requires HeadersInRange(d)
    ensures [h1, h2, h3, h4] == HeaderTexts(d)
  {
    hide RangeText, ShuffledOrder, HeaderTexts, SpanAt, Spans, TextsOf, Separated;
    var ranges := new string[4];
    FillRanges(d, ranges);
    HeaderTextAt(d);
    ShuffleStrings(ranges, d.swaps);
    h1, h2, h3, h4 := ranges[0], ranges[1], ranges[2], ranges[3];
  }

  lemma HeaderTextAt(d: HeaderDraws)
    requires HeadersInRange(d)
    ensures var order := ShuffledOrder(d.swaps, 1);
      forall i :: 0 <= i < 4 ==> order[i] < 4 && HeaderTexts(d)[i] == RangeText(SpanAt(d, order[i]))
  {
    hide RangeText, ShuffledOrder, SpanAt;
    OrderInside(d.swaps, 1);
  }

  /** A chain length as the generator prints it. */
  function Chain(n: nat): string { "<r " + Itoa(n) + ">" }

  datatype Draws = Draws(jc: nat, jmin: nat, jmax: nat, rounds: seq<Paddings>, headers: HeaderDraws,
                         i1: nat, i2: nat, i3: nat, i4: nat, i5: nat)

  /** Every number is one random.Num can return for its bound. */
  predicate InRange(d: Draws) {
    && d.jc < 4 && d.jmin < 50 && d.jmax < 100
    && (forall i :: 0 <= i < |d.rounds| ==> PaddingsInRange(d.rounds[i]))
    && HeadersInRange(d.headers)
    && d.i1 < 26 && d.i2 < 20 && d.i3 < 20 && d.i4 < 20 && d.i5 < 20
  }

  function Shifted(d: Paddings): Paddings {
    Paddings(15 + d.s1, 15 + d.s2, 10 + d.s3, 1 + d.s4)
  }

  /** The first acceptable round, or the number of rounds. */
  function FirstAccepted(rounds: seq<Paddings>): (i: nat)
    ensures i <= |rounds| && forall k :: 0 <= k < i ==> !Accepted(rounds[k])
    ensures i < |rounds| ==> Accepted(rounds[i])
  {
    if rounds == [] || Accepted(rounds[0]) then 0 else 1 + FirstAccepted(rounds[1..])
  }

  /** The retry loop over the rounds drawn; None when it would have to draw on. */
  method PickPaddings(rounds: seq<Paddings>) returns (s: Option<Paddings>)
    ensures var i := FirstAccepted(rounds); s == if i < |rounds| then Some(Shifted(rounds[i])) else None
  {
    for i := 0 to |rounds|
      invariant forall k :: 0 <= k < i ==> !Accepted(rounds[k])
    {
      var d := rounds[i];
      var s1, s2, s3, s4 := 15 + d.s1, 15 + d.s2, 10 + d.s3, 1 + d.s4;
      var unique := CheckUniqueInts([s1, s2, s3, s4]);
      if !unique {
        continue;
      }
      if PaddingClash(s1, s2, s3) {
        continue;
      }
      return Some(Paddings(s1, s2, s3, s4));
    }
    return None;
  }

  lemma {:induction false} DigitsOnly(s: string)
    requires AllDigits(s)
    ensures '-' !in s
  {
  }

  /** A printed range parses back to its bounds. */
  lemma RangeTextParses(s: Span)
    requires 0 <= s.lo <= MaxHeader && 0 <= s.hi <= MaxHeader
    ensures TrimSpace(RangeText(s)) == RangeText(s) && RangeText(s) != "" && '-' in RangeText(s)
    ensures HeaderBounds(RangeText(s)) == Some(s)
  {
    hide IsSpace, TrimSpace, Digits, Itoa, ParseInt, Cut;
    var a, b := Itoa(s.lo), Itoa(s.hi);
    ItoaValue(s.lo);
    ItoaValue(s.hi);
    ItoaVisible(s.lo);
    ItoaVisible(s.hi);
    DigitsOnly(a);
    assert RangeText(s) == a + ['-'] + b;
    assert RangeText(s)[|a|] == '-';
    TightTrims(RangeText(s));
    CutAt(a, '-', b);
    ParseItoa(s.lo);
    ParseItoa(s.hi);
    ItoaTight(s.lo);
    ItoaTight(s.hi);
    TightTrims(a);
    TightTrims(b);
  }

  lemma ItoaVisible(n: int)
    ensures Itoa(n) != "" && !IsSpace(Itoa(n)[0]) && !IsSpace(Itoa(n)[|Itoa(n)| - 1])
  {
  }

  lemma GeneratedHeaders(headers: seq<string>, spans: seq<Span>, order: seq<nat>)
    requires TextsOf(headers, spans, order)
    ensures Disjoint(headers)
    ensures forall i :: 0 <= i < |headers| ==> ValidHeaderRange(headers[i]) && !IsWeakHeader(headers[i])
  {
    hide HeaderBounds, RangeText, TrimSpace, ParseInt;
    forall i | 0 <= i < |headers|
      ensures HeaderBounds(headers[i]) == Some(spans[order[i]])
      ensures ValidHeaderRange(headers[i]) && !IsWeakHeader(headers[i])
    {
      RangeTextParses(spans[order[i]]);
    }
    forall i, j | 0 <= i < j < |headers|
      ensures !RangesOverlap(HeaderBounds(headers[i]).value, HeaderBounds(headers[j]).value)
    {
      assert order[i] != order[j];
      if order[i] < order[j] {
        assert spans[order[i]].hi < spans[order[j]].lo;
      } else {
        assert spans[order[j]].hi < spans[order[i]].lo;
      }
    }
  }

  lemma ChainIsVisible(n: nat)
    ensures !Unset(Chain(n))
  {
    hide IsSpace, Itoa, TrimSpace;
    assert Chain(n)[0] == '<' && Chain(n)[|Chain(n)| - 1] == '>';
    AnglesAreVisible();
    TightTrims(Chain(n));
  }

  lemma AnglesAreVisible()
    ensures !IsSpace('<') && !IsSpace('>')
  {
  }

  /** What the draws make of the parameters, given the accepted round. */
  function ParamsOf(d: Draws, r: Paddings): Params
    requires InRange(d)
  {
    var h := HeaderTexts(d.headers);
    Params(3 + d.jc, 64 + d.jmin, 114 + d.jmin + d.jmax, 15 + r.s1, 15 + r.s2, 10 + r.s3, 1 + r.s4,
           h[0], h[1], h[2], h[3],
           Chain(15 + d.i1), Chain(10 + d.i2), Chain(10 + d.i3), Chain(10 + d.i4), Chain(10 + d.i5))
  }

  /** The generated parameters; None when the retry loop would have to draw on. */
  function Generated(d: Draws): Option<Params>
    requires InRange(d)
  {
    var i := FirstAccepted(d.rounds);
    if i < |d.rounds| then Some(ParamsOf(d, d.rounds[i])) else None
  }

  /** Parameters made of an accepted round are valid and need no provisioning. */
  lemma ParamsAreValid(d: Draws, r: Paddings)
    requires InRange(d) && PaddingsInRange(r) && Accepted(r)
    ensures Valid(ParamsOf(d, r)) && !NeedsProvision(ParamsOf(d, r))
  {
    hide ValidHeaderRange, Disjoint, IsWeakHeader, Unset, TextsOf, Chain, ShuffledOrder, Reorders, HeaderTexts;
    var h := HeaderTexts(d.headers);
    GeneratedHeaders(h, Spans(d.headers), ShuffledOrder(d.headers.swaps, 1));
    assert h == [h[0], h[1], h[2], h[3]];
    ChainIsVisible(15 + d.i1);
    ChainIsVisible(10 + d.i2);
    ChainIsVisible(10 + d.i3);
    ChainIsVisible(10 + d.i4);
    ChainIsVisible(10 + d.i5);
  }

  lemma FourTexts(a: string, b: string, c: string, d: string, texts: seq<string>)
    requires [a, b, c, d] == texts
    ensures |texts| == 4 && a == texts[0] && b == texts[1] && c == texts[2] && d == texts[3]
  {
  }

  /** Whatever is drawn in range, parameters that come out are valid and need no provisioning. */
  method GenerateObfuscationParams(d: Draws) returns (out: Option<Params>)
    requires InRange(d)
    ensures out == Generated(d)
    ensures out.Some? ==> Valid(out.value) && !NeedsProvision(out.value)
  {
    hide HeaderTexts, Valid, NeedsProvision, Chain, HeadersInRange, FirstAccepted, Accepted, TextsOf, Spans,
      ShuffledOrder;
    var jc, jmin := 3 + d.jc, 64 + d.jmin;
    var jmax: int := jmin + 50 + d.jmax;
    assert jmin <= jmax <= 1024;
    if jmax > 1024 {
      jmax := 1024;
    }
    if jmax < jmin {
      jmax := jmin + 1;
    }
    var s := PickPaddings(d.rounds);
    if s.None? {
      return None;
    }
    var h1, h2, h3, h4 := GenerateHeaderRanges(d.headers);
    FourTexts(h1, h2, h3, h4, HeaderTexts(d.headers));
    ParamsAreValid(d, d.rounds[FirstAccepted(d.rounds)]);
    out := Some(Params(jc, jmin, jmax, s.value.s1, s.value.s2, s.value.s3, s.value.s4, h1, h2, h3, h4,
                       Chain(15 + d.i1), Chain(10 + d.i2), Chain(10 + d.i3), Chain(10 + d.i4), Chain(10 + d.i5)));
  }
}
