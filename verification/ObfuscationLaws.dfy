/**
 What the AmneziaWG validator accepts and the generator draws (internal/awg/obfuscation.go), in
 numbers: every bound is exact, and so is every reading of a printed header.
 */
module ObfuscationLaws {
  import opened Prelude
  import opened Text
  import opened Obfuscation

  // The sizes of the control packets that the first three paddings are added to.
  const InitiationSize := 148
  const ResponseSize := 92
  const CookieSize := 64

  /** In valid parameters, each number may be replaced by exactly these. */
  lemma NumbersDecided(p: Params, x: int)
    requires Valid(p)
    ensures Valid(p.(jc := x)) <==> 0 <= x <= 10
    ensures Valid(p.(jmin := x)) <==> 64 <= x <= p.jmax
    ensures Valid(p.(jmax := x)) <==> p.jmin <= x <= 1024
    ensures Valid(p.(s1 := x)) <==>
      0 <= x <= 64 && x !in {p.s2, p.s3, p.s4}
      && InitiationSize + x != ResponseSize + p.s2 && InitiationSize + x != CookieSize + p.s3
    ensures Valid(p.(s2 := x)) <==>
      0 <= x <= 64 && x !in {p.s1, p.s3, p.s4}
      && ResponseSize + x != InitiationSize + p.s1 && ResponseSize + x != CookieSize + p.s3
    ensures Valid(p.(s3 := x)) <==>
      0 <= x <= 64 && x !in {p.s1, p.s2, p.s4}
      && CookieSize + x != InitiationSize + p.s1 && CookieSize + x != ResponseSize + p.s2
    ensures Valid(p.(s4 := x)) <==> 0 <= x <= 32 && x !in {p.s1, p.s2, p.s3}
  {
    hide ValidHeaderRange, Disjoint, Unset, UniqueInts;
    FourUnique(p.s1, p.s2, p.s3, p.s4);
    FourUnique(x, p.s2, p.s3, p.s4);
    FourUnique(p.s1, x, p.s3, p.s4);
    FourUnique(p.s1, p.s2, x, p.s4);
    FourUnique(p.s1, p.s2, p.s3, x);
  }

  lemma FourUnique(a: int, b: int, c: int, d: int)
    ensures UniqueInts([a, b, c, d]) <==> a != b && a != c && a != d && b != c && b != d && c != d
  {
    var v := [a, b, c, d];
    assert v[0] == a && v[1] == b && v[2] == c && v[3] == d;
  }

  /** Paddings clash exactly when the three padded control packets are not of three sizes. */
  lemma ClashExactly(s1: int, s2: int, s3: int)
    ensures PaddingClash(s1, s2, s3) <==> |{InitiationSize + s1, ResponseSize + s2, CookieSize + s3}| < 3
  {
    var a, b, c := InitiationSize + s1, ResponseSize + s2, CookieSize + s3;
    if a == b {
      assert {a, b, c} == {a, c};
    } else if a == c || b == c {
      assert {a, b, c} == {a, b};
    } else {
      assert {a, b, c} - {a} == {b, c};
    }
  }

  /** In valid parameters, the five chains may be replaced when the first is blank or none is. */
  lemma ChainsDecided(p: Params, a: string, b: string, c: string, d: string, e: string)
    requires Valid(p)
    ensures Valid(p.(i1 := a, i2 := b, i3 := c, i4 := d, i5 := e)) <==>
      TrimSpace(a) == "" || (TrimSpace(b) != "" && TrimSpace(c) != "" && TrimSpace(d) != "" && TrimSpace(e) != "")
  {
    hide ValidHeaderRange, Disjoint, UniqueInts, TrimSpace;
  }

  // ---- what still needs provisioning ----------------------------------------------------------

  /** Parameters that need no provisioning come to need it by exactly these changes of a number. */
  lemma NeedsByNumbers(p: Params, x: int, a: int, b: int, c: int, d: int)
    requires !NeedsProvision(p)
    ensures NeedsProvision(p.(jc := x)) <==> x <= 0
    ensures NeedsProvision(p.(jmin := x)) <==> x <= 0
    ensures NeedsProvision(p.(jmax := x)) <==> x <= 0
    ensures NeedsProvision(p.(s1 := a, s2 := b, s3 := c, s4 := d)) <==> a <= 0 && b <= 0 && c <= 0 && d <= 0
  {
    hide IsWeakHeader, Unset;
  }

  /** And by a weak header or a blank chain, whichever of them it is. */
  lemma NeedsByTexts(p: Params, h: string, i: string)
    requires !NeedsProvision(p)
    ensures NeedsProvision(p.(h1 := h)) <==> IsWeakHeader(h)
    ensures NeedsProvision(p.(h2 := h)) <==> IsWeakHeader(h)
    ensures NeedsProvision(p.(h3 := h)) <==> IsWeakHeader(h)
    ensures NeedsProvision(p.(h4 := h)) <==> IsWeakHeader(h)
    ensures NeedsProvision(p.(i1 := i)) <==> TrimSpace(i) == ""
    ensures NeedsProvision(p.(i2 := i)) <==> TrimSpace(i) == ""
    ensures NeedsProvision(p.(i3 := i)) <==> TrimSpace(i) == ""
    ensures NeedsProvision(p.(i4 := i)) <==> TrimSpace(i) == ""
    ensures NeedsProvision(p.(i5 := i)) <==> TrimSpace(i) == ""
  {
    hide IsWeakHeader, TrimSpace;
  }

  // ---- headers -----------------------------------------------------------------------------

  lemma NumberReads(n: Int64)
    ensures TrimSpace(Itoa(n)) == Itoa(n) && ParseInt(Itoa(n)) == Parsed(n, true)
    ensures n >= 0 ==> '-' !in Itoa(n)
    ensures n < 0 ==> Itoa(n)[0] == '-'
  {
    hide IsSpace, TrimSpace, ParseInt;
    ItoaTight(n);
    TightTrims(Itoa(n));
    ParseItoa(n);
    ItoaValue(n);
    if n >= 0 {
      DigitsOnly(Itoa(n));
    }
  }

  /** A single printed number is a header exactly from 0 to 2147483647, and weak exactly from 1 to 4. */
  lemma SingleHeader(n: Int64)
    ensures ValidHeaderRange(Itoa(n)) <==> 0 <= n <= 2_147_483_647
    ensures IsWeakHeader(Itoa(n)) <==> 1 <= n <= 4
    ensures n >= 0 ==> HeaderBounds(Itoa(n)) == Some(Span(n, n))
  {
    hide TrimSpace, ParseInt, Itoa, IndexOf;
    NumberReads(n);
    var s := Itoa(n);
    if n >= 0 {
      IndexAt(s, '-', |s|);
    } else {
      IndexAt(s, '-', 0);
      NoNumber();
    }
  }

  lemma NoNumber()
    ensures TrimSpace("") == "" && !ParseInt("").ok
  {
  }

  /** A printed range is a header exactly for 0 <= lo <= hi <= 2147483647, and never weak. */
  lemma RangeHeader(lo: Int64, hi: Int64)
    ensures ValidHeaderRange(Itoa(lo) + "-" + Itoa(hi)) <==> 0 <= lo <= hi <= 2_147_483_647
    ensures !IsWeakHeader(Itoa(lo) + "-" + Itoa(hi))
    ensures lo >= 0 ==> HeaderBounds(Itoa(lo) + "-" + Itoa(hi)) == Some(Span(lo, hi))
  {
    hide TrimSpace, ParseInt, Itoa, IsSpace, Cut;
    var a, b := Itoa(lo), Itoa(hi);
    var s := a + "-" + b;
    NumberReads(lo);
    NumberReads(hi);
    ItoaVisible(lo);
    ItoaVisible(hi);
    TightTrims(s);
    assert s[|a|] == '-';
    if lo >= 0 {
      assert s == a + ['-'] + b;
      CutAt(a, '-', b);
    } else {
      assert s == "" + ['-'] + (a[1..] + "-" + b);
      CutAt("", '-', a[1..] + "-" + b);
      NoNumber();
    }
  }

  /** Two ranges overlap exactly when they share a value. */
  lemma OverlapExactly(a: Span, b: Span)
    requires a.lo <= a.hi && b.lo <= b.hi
    ensures RangesOverlap(a, b) <==> exists n :: Within(n, a) && Within(n, b)
  {
    if RangesOverlap(a, b) {
      var n := if a.lo >= b.lo then a.lo else b.lo;
      assert Within(n, a) && Within(n, b);
    }
  }

  predicate Within(n: int, s: Span) { s.lo <= n <= s.hi }

  // ---- what is drawn -----------------------------------------------------------------------

  predicate ChainOf(s: string, lo: nat, hi: nat) {
    exists n :: lo <= n <= hi && s == "<r " + Itoa(n) + ">"
  }

  /** The ranges the generated parameters fall in. */
  lemma GeneratedRanges(d: Draws)
    requires InRange(d) && Generated(d).Some?
    ensures var p := Generated(d).value;
      && 3 <= p.jc <= 6 && 64 <= p.jmin <= 113 && 50 <= p.jmax - p.jmin <= 149
      && 15 <= p.s1 <= 63 && 15 <= p.s2 <= 63 && 10 <= p.s3 <= 63 && 1 <= p.s4 <= 15
      && ChainOf(p.i1, 15, 40)
      && ChainOf(p.i2, 10, 29) && ChainOf(p.i3, 10, 29) && ChainOf(p.i4, 10, 29) && ChainOf(p.i5, 10, 29)
  {
    hide HeaderTexts, Accepted, Itoa;
  }

  /** Every combination of these numbers that the loop accepts is drawn by some draws. */
  lemma EveryNumberIsDrawn(jc: int, jmin: int, jmax: int, s1: int, s2: int, s3: int, s4: int, h: HeaderDraws)
    returns (d: Draws)
    requires 3 <= jc <= 6 && 64 <= jmin <= 113 && 50 <= jmax - jmin <= 149 && HeadersInRange(h)
    requires 15 <= s1 <= 63 && 15 <= s2 <= 63 && 10 <= s3 <= 63 && 1 <= s4 <= 15
    requires s1 != s2 && s1 != s3 && s1 != s4 && s2 != s3 && s2 != s4 && s3 != s4
    requires |{InitiationSize + s1, ResponseSize + s2, CookieSize + s3}| == 3
    ensures InRange(d) && Generated(d).Some?
    ensures var p := Generated(d).value;
      p.jc == jc && p.jmin == jmin && p.jmax == jmax && p.s1 == s1 && p.s2 == s2 && p.s3 == s3 && p.s4 == s4
  {
    hide HeaderTexts, HeadersInRange, UniqueInts, Itoa;
    var round := Paddings(s1 - 15, s2 - 15, s3 - 10, s4 - 1);
    d := Draws(jc - 3, jmin - 64, jmax - jmin - 50, [round], h, 0, 0, 0, 0, 0);
    FourUnique(s1, s2, s3, s4);
    ClashExactly(s1, s2, s3);
    assert Accepted(round);
  }

  /** Where the four header ranges are drawn. */
  lemma DrawnRanges(d: HeaderDraws)
    requires HeadersInRange(d)
    ensures var r := Spans(d);
      && 150_000_000 <= r[0].lo <= 199_999_999
      && (forall i :: 0 <= i < 4 ==> 50_000_000 <= r[i].hi - r[i].lo <= 149_999_999)
      && (forall i :: 1 <= i < 4 ==> 10_000_000 <= r[i].lo - r[i - 1].hi <= 29_999_999)
  {
  }
}
