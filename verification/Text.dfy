/**
 The string operations of Go's standard library that the modelled code relies on:
 TrimSpace, Split, Join, Cut, lower-casing, and decimal printing and parsing.
 */
module Text {
  import opened Prelude

  // ---- white space ---------------------------------------------------------------

  /** unicode.IsSpace. */
  predicate IsSpace(c: char) {
    c in {' ', '\t', '\n', '\r'} || c as int in {0x0B, 0x0C, 0x85, 0xA0, 0x1680, 0x2028, 0x2029, 0x202F, 0x205F, 0x3000}
    || 0x2000 <= c as int <= 0x200A
  }

  /** Where the first visible character is. */
  function Skip(s: string): (k: nat)
    ensures k <= |s| && Spaces(s, 0, k) && (k < |s| ==> !IsSpace(s[k]))
  {
    if s == "" || !IsSpace(s[0]) then 0
    else
      var k := 1 + Skip(s[1..]);
      assert forall i :: 0 < i < k ==> s[i] == s[1..][i - 1];
      k
  }

  /** Where the last visible character ends. */
  function Keep(s: string): (k: nat)
    ensures k <= |s| && Spaces(s, k, |s|) && (k > 0 ==> !IsSpace(s[k - 1]))
  {
    if s == "" || !IsSpace(s[|s| - 1]) then |s| else Keep(s[..|s| - 1])
  }

  function TrimLeft(s: string): string { s[Skip(s)..] }

  function TrimRight(s: string): string { s[..Keep(s)] }

  function TrimSpace(s: string): string {
    TrimRight(TrimLeft(s))
  }

  predicate Spaces(s: string, lo: nat, hi: nat)
    requires hi <= |s|
  {
    forall i :: lo <= i < hi ==> IsSpace(s[i])
  }

  predicate Tight(s: string) {
    s != "" ==> !IsSpace(s[0]) && !IsSpace(s[|s| - 1])
  }

  predicate Blank(s: string) { Spaces(s, 0, |s|) }

  /** What trimming leaves is pinned down by its visible ends and the blank text around it. */
  lemma TrimIs(s: string, i: nat, j: nat)
    requires i <= j <= |s| && Spaces(s, 0, i) && Spaces(s, j, |s|)
    requires i < j ==> !IsSpace(s[i]) && !IsSpace(s[j - 1])
    ensures TrimSpace(s) == s[i..j]
  {
    hide IsSpace;
    if i < j {
      assert Skip(s) == i;
      var t := s[i..];
      assert !IsSpace(t[j - i - 1]) && forall x :: j - i <= x < |t| ==> IsSpace(s[i + x]) && t[x] == s[i + x];
      assert Keep(t) == j - i;
    } else {
      assert Skip(s) == |s|;
    }
  }

  /** Trimming keeps a middle piece whose ends are not white space; what is cut is blank. */
  lemma TrimShape(s: string) returns (i: nat, j: nat)
    ensures i <= j <= |s| && Spaces(s, 0, i) && Spaces(s, j, |s|)
    ensures i < j ==> !IsSpace(s[i]) && !IsSpace(s[j - 1])
    ensures TrimSpace(s) == s[i..j]
  {
    hide IsSpace;
    i := Skip(s);
    var t := s[i..];
    var k := Keep(t);
    assert i < |s| ==> t[0] == s[i];
    assert forall x :: i + k <= x < |s| ==> s[x] == t[x - i];
    j := i + k;
  }

  lemma TightTrims(s: string)
    requires Tight(s)
    ensures TrimSpace(s) == s
  {
    hide IsSpace;
    TrimIs(s, 0, |s|);
  }

  lemma TrimIsTight(s: string)
    ensures Tight(TrimSpace(s)) && TrimSpace(TrimSpace(s)) == TrimSpace(s)
  {
    hide IsSpace;
    var i, j := TrimShape(s);
    TightTrims(TrimSpace(s));
  }

  lemma BlankTrims(s: string)
    requires Blank(s)
    ensures TrimSpace(s) == ""
  {
    hide IsSpace;
    TrimIs(s, 0, 0);
  }

  lemma VisibleStart(s: string)
    requires s != "" && !IsSpace(s[0])
    ensures TrimSpace(s) != ""
  {
    hide TrimSpace;
    var i, j := TrimShape(s);
  }

  /** Blank text around a string does not change what trimming leaves. */
  lemma TrimAround(b: string, s: string, e: string)
    requires Blank(b) && Blank(e)
    ensures TrimSpace(b + s + e) == TrimSpace(s)
  {
    hide IsSpace, TrimSpace;
    var i, j := TrimShape(s);
    var t := b + s + e;
    assert forall x :: 0 <= x < |s| ==> t[|b| + x] == s[x];
    assert Spaces(t, 0, |b| + i) && Spaces(t, |b| + j, |t|);
    TrimIs(t, |b| + i, |b| + j);
    assert t[|b| + i..|b| + j] == s[i..j];
  }

  /** A first visible character shields everything after it from left trimming. */
  lemma TrimKeepsHead(head: string, s: string)
    requires head != "" && !IsSpace(head[0]) && !IsSpace(head[|head| - 1])
    ensures TrimSpace(head + s) == head + TrimRight(s)
  {
    hide IsSpace, TrimSpace;
    var t, k := head + s, Keep(s);
    assert k > 0 ==> t[|head| + k - 1] == s[k - 1];
    TrimIs(t, 0, |head| + k);
    assert t[0..|head| + k] == head + s[..k];
  }

  lemma TrimOfTrimRight(s: string)
    ensures TrimSpace(TrimRight(s)) == TrimSpace(s)
  {
    hide IsSpace, TrimSpace;
    var e := s[Keep(s)..];
    assert "" + TrimRight(s) + e == s;
    TrimAround("", TrimRight(s), e);
  }

  // ---- searching, splitting and joining ---------------------------------------------

  /** Index of the first c, or the length when there is none. */
  function IndexOf(s: string, c: char): (i: nat)
    ensures i <= |s| && c !in s[..i] && (i < |s| ==> s[i] == c)
  {
    if s == "" || s[0] == c then 0
    else
      var i := 1 + IndexOf(s[1..], c);
      assert s[..i] == [s[0]] + s[1..][..i - 1];
      i
  }

  lemma IndexAt(s: string, c: char, i: nat)
    requires i <= |s| && c !in s[..i] && (i < |s| ==> s[i] == c)
    ensures IndexOf(s, c) == i
  {
    var k := IndexOf(s, c);
    assert forall x :: 0 <= x < i ==> s[..i][x] == s[x];
    assert forall x :: 0 <= x < k ==> s[..k][x] == s[x];
  }

  function Split(s: string, c: char): (parts: seq<string>)
    ensures parts != []
    decreases |s|
  {
    var i := IndexOf(s, c);
    if i == |s| then [s] else [s[..i]] + Split(s[i + 1..], c)
  }

  function Join(parts: seq<string>, sep: string): string {
    if parts == [] then ""
    else if |parts| == 1 then parts[0]
    else parts[0] + sep + Join(parts[1..], sep)
  }

  lemma SplitHead(p: string, c: char, rest: string)
    requires c !in p
    ensures Split(p, c) == [p]
    ensures Split(p + [c] + rest, c) == [p] + Split(rest, c)
  {
    IndexAt(p, c, |p|);
    var s := p + [c] + rest;
    assert s[..|p|] == p && s[|p|] == c && s[|p| + 1..] == rest;
    IndexAt(s, c, |p|);
  }

  lemma {:induction false} SplitJoin(parts: seq<string>, c: char)
    requires parts != [] && forall i :: 0 <= i < |parts| ==> c !in parts[i]
    ensures Split(Join(parts, [c]), c) == parts
  {
    hide Split, IndexOf;
    if |parts| == 1 {
      SplitHead(parts[0], c, "");
    } else {
      var rest := parts[1..];
      SplitJoin(rest, c);
      SplitHead(parts[0], c, Join(rest, [c]));
      assert Join(parts, [c]) == parts[0] + [c] + Join(rest, [c]);
    }
  }

  lemma {:induction false} SplitAcross(a: string, c: char, b: string)
    ensures |Split(a + [c] + b, c)| == |Split(a, c)| + |Split(b, c)|
    decreases |a|
  {
    hide Split;
    var i := IndexOf(a, c);
    if i == |a| {
      SplitHead(a, c, b);
    } else {
      var rest := a[i + 1..];
      assert a == a[..i] + [c] + rest && a + [c] + b == a[..i] + [c] + (rest + [c] + b);
      SplitHead(a[..i], c, rest);
      SplitHead(a[..i], c, rest + [c] + b);
      SplitAcross(rest, c, b);
    }
  }

  lemma SplitSize(s: string, c: char)
    ensures |Split(s, c)| >= 1 && (|Split(s, c)| == 1 ==> c !in s)
  {
  }

  /** Joined parts split into at least as many, and into as many only where none holds the separator. */
  lemma {:induction false} JoinedParts(parts: seq<string>, c: char)
    requires parts != []
    ensures var n := |Split(Join(parts, [c]), c)|;
      n >= |parts| && (n == |parts| ==> forall i :: 0 <= i < |parts| ==> c !in parts[i])
  {
    hide Split, IndexOf;
    SplitSize(parts[0], c);
    if |parts| > 1 {
      SplitAcross(parts[0], c, Join(parts[1..], [c]));
      JoinedParts(parts[1..], c);
    }
  }

  lemma {:induction false} SplitPartsClean(s: string, c: char)
    ensures forall i :: 0 <= i < |Split(s, c)| ==> c !in Split(s, c)[i]
    decreases |s|
  {
    var i := IndexOf(s, c);
    if i < |s| {
      SplitPartsClean(s[i + 1..], c);
    }
  }

  lemma SplitStep(s: string, c: char)
    ensures var i := IndexOf(s, c);
      Split(s, c) == if i == |s| then [s] else [s[..i]] + Split(s[i + 1..], c)
  {
    hide IndexOf;
  }

  lemma JoinStep(head: string, tail: seq<string>, sep: string)
    ensures tail == [] ==> Join([head] + tail, sep) == head
    ensures tail != [] ==> Join([head] + tail, sep) == head + sep + Join(tail, sep)
  {
    assert ([head] + tail)[1..] == tail;
  }

  lemma {:induction false} JoinSplit(s: string, c: char)
    ensures Join(Split(s, c), [c]) == s
    decreases |s|
  {
    hide IndexOf, Split, Join;
    var i := IndexOf(s, c);
    SplitStep(s, c);
    if i == |s| {
      JoinStep(s, [], [c]);
      assert [s] + [] == [s];
    } else {
      var rest := s[i + 1..];
      JoinSplit(rest, c);
      JoinStep(s[..i], Split(rest, c), [c]);
      assert s == s[..i] + [c] + rest;
    }
  }

  /** strings.Cut around the first c. */
  function Cut(s: string, c: char): Option<(string, string)> {
    var i := IndexOf(s, c);
    if i == |s| then None else Some((s[..i], s[i + 1..]))
  }

  lemma CutAt(before: string, c: char, after: string)
    requires c !in before
    ensures Cut(before + [c] + after, c) == Some((before, after))
  {
    var s := before + [c] + after;
    assert s[..|before|] == before && s[|before|] == c && s[|before| + 1..] == after;
    IndexAt(s, c, |before|);
  }

  predicate HasPrefix(s: string, p: string) {
    |p| <= |s| && s[..|p|] == p
  }

  predicate HasSuffix(s: string, p: string) {
    |p| <= |s| && s[|s| - |p|..] == p
  }

  // ---- lower case ----------------------------------------------------------------------

  /** Lower-casing as far as ASCII results go: besides A-Z only the Kelvin sign and dotted capital I land in ASCII. */
  function LowerChar(c: char): char {
    if 'A' <= c <= 'Z' then (c as int + 32) as char
    else if c as int == 0x212A then 'k'
    else if c as int == 0x130 then 'i'
    else c
  }

  function ToLower(s: string): string {
    seq(|s|, i requires 0 <= i < |s| => LowerChar(s[i]))
  }

  // ---- decimal numbers --------------------------------------------------------------------

  const MaxInt64 := 0x7FFF_FFFF_FFFF_FFFF
  const MinInt64 := -0x8000_0000_0000_0000

  type Int64 = x: int | MinInt64 <= x <= MaxInt64 witness 0

  predicate IsDigit(c: char) { '0' <= c <= '9' }

  predicate AllDigits(s: string) {
    forall i :: 0 <= i < |s| ==> IsDigit(s[i])
  }

  function DigitChar(d: nat): (c: char)
    requires d < 10
    ensures IsDigit(c) && c as int - '0' as int == d
  {
    ('0' as int + d) as char
  }

  function Digits(n: nat): (s: string)
    ensures s != "" && AllDigits(s)
  {
    if n < 10 then [DigitChar(n)] else Digits(n / 10) + [DigitChar(n % 10)]
  }

  function DigitsValue(s: string): nat
    requires AllDigits(s)
  {
    if s == "" then 0 else 10 * DigitsValue(s[..|s| - 1]) + (s[|s| - 1] as int - '0' as int)
  }

  lemma {:induction false} DigitsRoundTrip(n: nat)
    ensures DigitsValue(Digits(n)) == n
  {
    if n < 10 {
      assert Digits(n)[..0] == "";
    } else {
      DigitsRoundTrip(n / 10);
      var s := Digits(n);
      assert s[..|s| - 1] == Digits(n / 10);
    }
  }

  /** strconv.Itoa, and %d. */
  function Itoa(n: int): (s: string)
    ensures s != "" && (s[0] == '-' || IsDigit(s[0])) && IsDigit(s[|s| - 1])
    ensures forall i :: 0 <= i < |s| ==> s[i] == '-' || IsDigit(s[i])
  {
    if n < 0 then "-" + Digits(-n) else Digits(n)
  }

  datatype Parsed = Parsed(value: int, ok: bool)

  /** strconv.ParseInt(s, 10, 64): 0 on a syntax error, the nearest bound on a range error. */
  function ParseInt(s: string): Parsed {
    if s == "" then Parsed(0, false)
    else
      var neg := s[0] == '-';
      var body := if s[0] == '-' || s[0] == '+' then s[1..] else s;
      if body == "" || !AllDigits(body) then Parsed(0, false)
      else
        var v: int := DigitsValue(body);
        var n := if neg then -v else v;
        if n > MaxInt64 then Parsed(MaxInt64, false)
        else if n < MinInt64 then Parsed(MinInt64, false)
        else Parsed(n, true)
  }

  lemma ParseItoa(n: Int64)
    ensures ParseInt(Itoa(n)) == Parsed(n, true)
  {
    var m: int := n;
    if m < 0 {
      DigitsRoundTrip(-m);
      assert Itoa(m)[1..] == Digits(-m);
    } else {
      DigitsRoundTrip(m);
      assert IsDigit(Digits(m)[0]);
    }
  }

  lemma ItoaValue(n: int)
    ensures n < 0 ==> Itoa(n)[0] == '-' && AllDigits(Itoa(n)[1..]) && DigitsValue(Itoa(n)[1..]) == -n
    ensures n >= 0 ==> IsDigit(Itoa(n)[0]) && AllDigits(Itoa(n)) && DigitsValue(Itoa(n)) == n
  {
    if n < 0 {
      DigitsRoundTrip(-n);
      assert Itoa(n)[1..] == Digits(-n);
    } else {
      DigitsRoundTrip(n);
    }
  }

  lemma ItoaInjective(a: int, b: int)
    requires Itoa(a) == Itoa(b)
    ensures a == b
  {
    ItoaValue(a);
    ItoaValue(b);
  }

  lemma ItoaTight(n: int)
    ensures Tight(Itoa(n)) && '\n' !in Itoa(n) && '=' !in Itoa(n)
  {
  }
}
