/**
 The {{TOKEN}} placeholders of a remark template (internal/sub/remark_vars.go): what the
 regular expression finds, and that cutting a text at a separator, at white space or around a
 placeholder neither loses nor creates one.
 */
module RemarkTokens {
  import opened Prelude
  import opened Text

  predicate NameChar(c: char) { 'A' <= c <= 'Z' || c == '_' }

  predicate TokenChar(c: char) { NameChar(c) || c == '{' || c == '}' }

  /** Where the leading name characters of s end. */
  function NameEnd(s: string): (n: nat)
    ensures n <= |s| && forall i :: 0 <= i < n ==> NameChar(s[i])
    ensures n < |s| ==> !NameChar(s[n])
  {
    if s == "" || !NameChar(s[0]) then 0
    else
      var n := 1 + NameEnd(s[1..]);
      assert forall i :: 0 < i < n ==> s[i] == s[1..][i - 1];
      n
  }

  /** s is exactly one placeholder. */
  predicate IsToken(s: string) {
    && |s| >= 5 && s[0] == '{' && s[1] == '{' && s[|s| - 1] == '}' && s[|s| - 2] == '}'
    && forall i :: 2 <= i < |s| - 2 ==> NameChar(s[i])
  }

  /** Length of the placeholder s starts with, 0 when there is none. */
  function MatchLen(s: string): (n: nat)
    ensures n <= |s| && (n > 0 ==> IsToken(s[..n]))
  {
    if |s| >= 5 && s[0] == '{' && s[1] == '{' then
      var e := 2 + NameEnd(s[2..]);
      assert forall i :: 2 <= i < e ==> s[i] == s[2..][i - 2];
      if e > 2 && e + 2 <= |s| && s[e] == '}' && s[e + 1] == '}' then e + 2 else 0
    else 0
  }

  function NameOf(token: string): string
    requires IsToken(token)
  {
    token[2..|token| - 2]
  }

  lemma NameEndIs(s: string, k: nat)
    requires k <= |s| && (forall i :: 0 <= i < k ==> NameChar(s[i])) && (k < |s| ==> !NameChar(s[k]))
    ensures NameEnd(s) == k
  {
    hide NameChar;
  }

  lemma MatchIs(s: string, n: nat)
    requires n <= |s| && IsToken(s[..n])
    ensures MatchLen(s) == n
  {
    var t := s[..n];
    assert forall i :: 0 <= i < n ==> t[i] == s[i];
    NameEndIs(s[2..], n - 4);
  }

  /** The names of all placeholders, left to right. */
  function Tokens(s: string): seq<string>
    decreases |s|
  {
    if s == "" then []
    else
      var n := MatchLen(s);
      if n > 0 then [NameOf(s[..n])] + Tokens(s[n..]) else Tokens(s[1..])
  }

  datatype Loc = Loc(start: nat, end: nat)

  /** FindAllStringSubmatchIndex from a position on. */
  function FindAll(s: string, from: nat): seq<Loc>
    requires from <= |s|
    decreases |s| - from
  {
    if from == |s| then []
    else
      var n := MatchLen(s[from..]);
      if n > 0 then [Loc(from, from + n)] + FindAll(s, from + n) else FindAll(s, from + 1)
  }

  // ---- cutting a text --------------------------------------------------------------

  lemma MatchOfPrefix(a: string, b: string)
    requires MatchLen(a) > 0
    ensures MatchLen(a + b) == MatchLen(a)
  {
    assert (a + b)[..MatchLen(a)] == a[..MatchLen(a)];
    MatchIs(a + b, MatchLen(a));
  }

  lemma MatchWithin(a: string, b: string)
    requires 0 < MatchLen(a + b) <= |a|
    ensures MatchLen(a) == MatchLen(a + b)
  {
    var n := MatchLen(a + b);
    assert (a + b)[..n] == a[..n];
    MatchIs(a, n);
  }

  lemma TokenCharsOnly(t: string)
    requires IsToken(t)
    ensures forall i :: 0 <= i < |t| ==> TokenChar(t[i])
  {
  }

  /** A character no placeholder contains separates the placeholders around it. */
  lemma {:induction false} TokensAround(a: string, c: char, b: string)
    requires !TokenChar(c)
    ensures Tokens(a + [c] + b) == Tokens(a) + Tokens(b)
    decreases |a|
  {
    hide MatchLen, TokenChar, IsToken;
    var s := a + [c] + b;
    assert s[..|s|] == s;
    if 0 < MatchLen(s) {
      NoSeparatorInside(a, c, b);
    }
    assert s == a + ([c] + b);
    if a == "" {
      assert s[1..] == b;
    } else if MatchLen(a) > 0 {
      MatchOfPrefix(a, [c] + b);
      var n := MatchLen(a);
      assert s[n..] == a[n..] + [c] + b && s[..n] == a[..n];
      TokensAround(a[n..], c, b);
    } else {
      if MatchLen(s) > 0 {
        MatchWithin(a, [c] + b);
      }
      assert s[1..] == a[1..] + [c] + b;
      TokensAround(a[1..], c, b);
    }
  }

  lemma NoSeparatorInside(a: string, c: char, b: string)
    requires !TokenChar(c) && MatchLen(a + [c] + b) > 0
    ensures MatchLen(a + [c] + b) <= |a|
  {
    hide MatchLen;
    var s := a + [c] + b;
    var n := MatchLen(s);
    TokenCharsOnly(s[..n]);
    assert s[|a|] == c && forall i :: 0 <= i < n ==> s[..n][i] == s[i];
  }

  /** A placeholder is found wherever it stands, and nothing around it reaches into it. */
  lemma {:induction false} TokenCut(u: string, t: string, v: string)
    requires IsToken(t)
    ensures Tokens(u + t + v) == Tokens(u) + [NameOf(t)] + Tokens(v)
    decreases |u|
  {
    hide MatchLen, IsToken;
    var s := u + t + v;
    assert s == u + (t + v);
    TokenIsLong(t);
    if u == "" {
      assert s[..|t|] == t && s[|t|..] == v;
      MatchIs(s, |t|);
    } else if MatchLen(u) > 0 {
      MatchOfPrefix(u, t + v);
      var n := MatchLen(u);
      assert s[n..] == u[n..] + t + v && s[..n] == u[..n];
      TokenCut(u[n..], t, v);
    } else {
      if MatchLen(s) > 0 {
        NoOverlap(u, t, v);
        MatchWithin(u, t + v);
      }
      assert s[1..] == u[1..] + t + v;
      TokenCut(u[1..], t, v);
    }
  }

  lemma TokenIsLong(t: string)
    requires IsToken(t)
    ensures |t| >= 5
  {
  }

  lemma NoOverlap(u: string, t: string, v: string)
    requires IsToken(t) && u != "" && MatchLen(u + t + v) > 0
    ensures MatchLen(u + t + v) <= |u|
  {
    hide MatchLen;
    var s := u + t + v;
    var n := MatchLen(s);
    var m := s[..n];
    assert forall i :: 0 <= i < n ==> m[i] == s[i];
    assert s[|u|] == t[0] && s[|u| + 1] == t[1];
  }

  lemma {:induction false} NoTokens(s: string)
    requires forall i :: 0 <= i < |s| ==> s[i] != '{'
    ensures Tokens(s) == []
    decreases |s|
  {
    if s != "" {
      NoTokens(s[1..]);
    }
  }

  lemma NothingHasNoTokens()
    ensures Tokens("") == []
  {
  }

  lemma {:induction false} BlankLeft(b: string, s: string)
    requires Blank(b)
    ensures Tokens(b + s) == Tokens(s)
  {
    hide IsSpace, TokenChar, Tokens;
    NothingHasNoTokens();
    if b == "" {
      assert b + s == s;
    } else {
      SpaceIsNoToken(b[0]);
      TokensAround("", b[0], b[1..] + s);
      assert "" + [b[0]] + (b[1..] + s) == b + s;
      BlankLeft(b[1..], s);
    }
  }

  lemma {:induction false} BlankRight(s: string, b: string)
    requires Blank(b)
    ensures Tokens(s + b) == Tokens(s)
  {
    hide IsSpace, TokenChar, Tokens;
    NothingHasNoTokens();
    if b == "" {
      assert s + b == s;
    } else {
      var n := |b| - 1;
      SpaceIsNoToken(b[n]);
      TokensAround(s + b[..n], b[n], "");
      assert (s + b[..n]) + [b[n]] + "" == s + b;
      BlankRight(s, b[..n]);
    }
  }

  lemma SpaceIsNoToken(c: char)
    requires IsSpace(c)
    ensures !TokenChar(c)
  {
  }

  /** Trimming white space keeps every placeholder. */
  lemma TrimKeepsTokens(s: string)
    ensures Tokens(TrimSpace(s)) == Tokens(s)
  {
    hide IsSpace, Tokens, TrimSpace;
    var i, j := TrimShape(s);
    var m := s[i..j];
    assert s == s[..i] + (m + s[j..]);
    BlankLeft(s[..i], m + s[j..]);
    BlankRight(m, s[j..]);
  }

  // ---- what FindAll reports ------------------------------------------------------------

  /** The first location from a position on, and what is left after it. */
  lemma {:induction false} FirstMatch(s: string, from: nat)
    requires from <= |s|
    ensures var locs := FindAll(s, from);
      if locs == [] then Tokens(s[from..]) == []
      else
        var l := locs[0];
        && from <= l.start < l.end <= |s| && IsToken(s[l.start..l.end])
        && Tokens(s[from..]) == [NameOf(s[l.start..l.end])] + Tokens(s[l.end..])
        && locs[1..] == FindAll(s, l.end)
    decreases |s| - from
  {
    hide MatchLen, IsToken;
    if from < |s| {
      var n := MatchLen(s[from..]);
      if n > 0 {
        assert s[from..][..n] == s[from..from + n] && s[from..][n..] == s[from + n..];
      } else {
        FirstMatch(s, from + 1);
        assert s[from..][1..] == s[from + 1..];
      }
    }
  }

  /** After the last location there is no placeholder left. */
  lemma {:induction false} LastMatch(s: string, from: nat)
    requires from <= |s| && FindAll(s, from) != []
    ensures var locs := FindAll(s, from);
      var l := locs[|locs| - 1];
      from <= l.start < l.end <= |s| && IsToken(s[l.start..l.end]) && Tokens(s[l.end..]) == []
      && locs[0].start <= l.start && locs[0].end <= l.end
    decreases |s| - from
  {
    hide MatchLen, IsToken, Tokens;
    FirstMatch(s, from);
    var locs := FindAll(s, from);
    var l := locs[0];
    if |locs| == 1 {
      FirstMatch(s, l.end);
    } else {
      LastMatch(s, l.end);
      FirstMatch(s, l.end);
      assert locs[1..][|locs| - 2] == locs[|locs| - 1];
    }
  }
}
