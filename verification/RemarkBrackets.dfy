/**
 translateUISingleBrackets (internal/sub/remark_vars.go) turns known {TOKEN} placeholders into
 their {{TOKEN}} form.  Translating twice changes nothing, nor does translating after a filter.
 */
module RemarkBrackets {
  import opened Prelude
  import opened Text
  import opened RemarkTokens
  import opened RemarkFilter

  const UITokens: map<string, string> := map[
    "EMAIL" := "EMAIL",
    "DATA_USAGE" := "TRAFFIC_USED",
    "DATA_LEFT" := "TRAFFIC_LEFT",
    "DATA_LIMIT" := "TRAFFIC_TOTAL",
    "DAYS_LEFT" := "DAYS_LEFT",
    "EXPIRE_DATE" := "EXPIRE_DATE",
    "JALALI_EXPIRE_DATE" := "JALALI_EXPIRE_DATE",
    "TIME_LEFT" := "TIME_LEFT",
    "STATUS_EMOJI" := "STATUS_EMOJI",
    "USAGE_PERCENTAGE" := "USAGE_PERCENTAGE",
    "PROTOCOL" := "PROTOCOL",
    "TRANSPORT" := "TRANSPORT",
    "SECURITY" := "SECURITY"]

  predicate AllNameChars(s: string) {
    forall i :: 0 <= i < |s| ==> NameChar(s[i])
  }

  lemma ShortTokenNames()
    ensures AllNameChars("EMAIL") && AllNameChars("DATA_USAGE") && AllNameChars("DATA_LEFT")
      && AllNameChars("DATA_LIMIT")
    ensures AllNameChars("DAYS_LEFT") && AllNameChars("EXPIRE_DATE") && AllNameChars("TIME_LEFT")
    ensures AllNameChars("PROTOCOL") && AllNameChars("TRANSPORT") && AllNameChars("SECURITY")
  {
  }

  lemma LongTokenNames()
    ensures AllNameChars("JALALI_EXPIRE_DATE") && AllNameChars("STATUS_EMOJI") && AllNameChars("USAGE_PERCENTAGE")
    ensures AllNameChars("TRAFFIC_USED") && AllNameChars("TRAFFIC_LEFT") && AllNameChars("TRAFFIC_TOTAL")
  {
  }

  lemma UITokenNames(name: string)
    requires name in UITokens
    ensures AllNameChars(name) && AllNameChars(UITokens[name]) && name != "" && UITokens[name] != ""
  {
    hide AllNameChars;
    ShortTokenNames();
    LongTokenNames();
    var names := {"EMAIL", "DATA_USAGE", "DATA_LEFT", "DATA_LIMIT", "DAYS_LEFT", "EXPIRE_DATE", "JALALI_EXPIRE_DATE",
      "TIME_LEFT", "STATUS_EMOJI", "USAGE_PERCENTAGE", "PROTOCOL", "TRANSPORT", "SECURITY"};
    assert name in names;
  }

  /** The text between a '{' at the start of s and the next '}', when it names a known token. */
  function KnownName(s: string): Option<string> {
    if s == "" || s[0] != '{' then None
    else
      var k := IndexOf(s[1..], '}');
      if k < |s[1..]| && s[1..][..k] in UITokens then Some(s[1..][..k]) else None
  }

  /** The rest of the template; open says that the character before it is '{'. */
  function Translate(open: bool, s: string): string
    decreases |s|
  {
    if s == "" then ""
    else if !open && KnownName(s).Some? then
      var name := KnownName(s).value;
      "{{" + UITokens[name] + "}}" + Translate(false, s[|name| + 2..])
    else [s[0]] + Translate(s[0] == '{', s[1..])
  }

  method TranslateUISingleBrackets(template: string) returns (result: string)
    ensures result == Translate(false, template)
  {
    hide Translate, KnownName, UITokens;
    result := "";
    var i := 0;
    assert template[0..] == template;
    while i < |template|
      invariant 0 <= i <= |template|
      invariant Translate(false, template) == result + Translate(i > 0 && template[i - 1] == '{', template[i..])
    {
      ghost var open := i > 0 && template[i - 1] == '{';
      ghost var rest := template[i..];
      if template[i] == '{' && (i == 0 || template[i - 1] != '{') {
        var j := FindClose(template, i + 1);
        if j < |template| && template[j] == '}' {
          var token := template[i + 1..j];
          KnownNameAt(template, i, j);
          if token in UITokens {
            TranslateKnown(open, rest, token);
            assert rest[|token| + 2..] == template[j + 1..];
            result := result + "{{" + UITokens[token] + "}}";
            i := j + 1;
            continue;
          }
        } else {
          NoKnownName(template, i);
        }
      }
      NotBrace(rest);
      TranslatePlain(open, rest);
      assert rest[1..] == template[i + 1..];
      result := result + [template[i]];
      i := i + 1;
    }
    assert template[i..] == "";
    TranslateNothing(i > 0 && template[i - 1] == '{');
  }

  method FindClose(template: string, from: nat) returns (j: nat)
    requires from <= |template|
    ensures from <= j <= |template|
    ensures forall x :: from <= x < j ==> template[x] != '}'
    ensures j < |template| ==> template[j] == '}'
  {
    j := from;
    while j < |template| && template[j] != '}'
      invariant from <= j <= |template|
      invariant forall x :: from <= x < j ==> template[x] != '}'
    {
      j := j + 1;
    }
  }

  lemma KnownNameAt(template: string, i: nat, j: nat)
    requires i < j < |template| && template[i] == '{' && template[j] == '}'
    requires forall x :: i + 1 <= x < j ==> template[x] != '}'
    ensures KnownName(template[i..]) == if template[i + 1..j] in UITokens then Some(template[i + 1..j]) else None
  {
    var s := template[i..];
    IndexAt(s[1..], '}', j - i - 1);
    assert s[1..][..j - i - 1] == template[i + 1..j];
  }

  lemma NoKnownName(template: string, i: nat)
    requires i < |template| && template[i] == '{'
    requires forall x :: i + 1 <= x < |template| ==> template[x] != '}'
    ensures KnownName(template[i..]).None?
  {
    var s := template[i..];
    assert forall x :: 0 <= x < |s[1..]| ==> s[1..][x] == template[i + 1 + x];
  }

  lemma TranslateKnown(open: bool, s: string, name: string)
    requires !open && KnownName(s) == Some(name)
    ensures |name| + 2 <= |s|
    ensures Translate(open, s) == "{{" + UITokens[name] + "}}" + Translate(false, s[|name| + 2..])
  {
  }

  lemma TranslatePlain(open: bool, s: string)
    requires s != "" && (open || KnownName(s).None?)
    ensures Translate(open, s) == [s[0]] + Translate(s[0] == '{', s[1..])
  {
  }

  lemma NotBrace(s: string)
    ensures s != "" && s[0] != '{' ==> KnownName(s).None?
  {
  }

  lemma StartsBrace(open: bool, s: string)
    ensures !open && KnownName(s).Some? ==> Translate(open, s) != "" && Translate(open, s)[0] == '{'
  {
  }

  lemma TranslateNothing(open: bool)
    ensures Translate(open, "") == ""
  {
  }

  // ---- nothing left to translate ---------------------------------------------------------

  /** No known single-brace token stands in s. */
  predicate Clean(open: bool, s: string)
    decreases |s|
  {
    s == "" || ((open || KnownName(s).None?) && Clean(s[0] == '{', s[1..]))
  }

  lemma {:induction false} CleanStays(open: bool, s: string)
    requires Clean(open, s)
    ensures Translate(open, s) == s
    decreases |s|
  {
    hide KnownName;
    if s != "" {
      TranslatePlain(open, s);
      CleanStays(s[0] == '{', s[1..]);
      assert s == [s[0]] + s[1..];
    }
  }

  /** What KnownName finds, as a prefix. */
  lemma KnownIs(s: string, name: string)
    ensures KnownName(s) == Some(name) <==> name in UITokens && |name| + 2 <= |s| && s[..|name| + 2] == "{" + name + "}"
  {
    hide UITokens;
    if name in UITokens && |name| + 2 <= |s| && s[..|name| + 2] == "{" + name + "}" {
      UITokenNames(name);
      var t := s[1..];
      assert forall i :: 0 <= i < |name| ==> t[i] == s[..|name| + 2][i + 1] == name[i];
      assert t[|name|] == s[..|name| + 2][|name| + 1] == '}';
      assert t[..|name|] == name;
      IndexAt(t, '}', |name|);
    }
    if KnownName(s) == Some(name) {
      var k := IndexOf(s[1..], '}');
      assert s[..k + 2] == "{" + s[1..][..k] + "}";
    }
  }

  /** Text without '{' before its first '}' comes through translation unchanged, and from nowhere else. */
  lemma {:induction false} PlainPrefix(open: bool, s: string, w: string)
    requires AllNameChars(w) && |w| < |Translate(open, s)|
    requires Translate(open, s)[..|w| + 1] == w + "}"
    ensures |w| < |s| && s[..|w| + 1] == w + "}"
    decreases |s|
  {
    hide UITokens, KnownName;
    var t := Translate(open, s);
    assert t[0] == (w + "}")[0];
    StartsBrace(open, s);
    assert NameChar(t[0]) || t[0] == '}';
    TranslatePlain(open, s);
    var rest := Translate(s[0] == '{', s[1..]);
    assert t == [s[0]] + rest;
    if w != "" {
      assert rest[..|w|] == t[..|w| + 1][1..] == w[1..] + "}";
      PlainPrefix(s[0] == '{', s[1..], w[1..]);
      assert s[..|w| + 1] == [s[0]] + s[1..][..|w|];
    } else {
      assert s[..1] == [s[0]];
    }
  }

  /** A token that translation leaves behind a '{' was there before it. */
  lemma NoNewName(s: string)
    requires s != "" && s[0] == '{' && KnownName(s).None?
    ensures KnownName([s[0]] + Translate(true, s[1..])).None?
  {
    hide UITokens, KnownName, Translate;
    var t := [s[0]] + Translate(true, s[1..]);
    if KnownName(t).Some? {
      var name := KnownName(t).value;
      KnownIs(t, name);
      UITokenNames(name);
      assert t[1..][..|name| + 1] == t[..|name| + 2][1..] == name + "}";
      PlainPrefix(true, s[1..], name);
      assert s[..|name| + 2] == [s[0]] + s[1..][..|name| + 1];
      KnownIs(s, name);
    }
  }

  lemma {:induction false} CleanAcross(open: bool, a: string, b: string)
    requires !('{' in a)
    ensures Clean(open, a + b) <==> Clean(if a == "" then open else false, b)
    decreases |a|
  {
    hide KnownName;
    if a == "" {
      assert a + b == b;
    } else {
      NotBrace(a + b);
      assert (a + b)[1..] == a[1..] + b;
      CleanAcross(false, a[1..], b);
    }
  }

  /** A translated token followed by clean text is clean. */
  lemma TokenIsClean(open: bool, name: string, rest: string)
    requires AllNameChars(name) && Clean(false, rest)
    ensures Clean(open, "{{" + name + "}}" + rest)
  {
    hide KnownName, UITokens;
    var s := "{{" + name + "}}" + rest;
    var body := name + "}}";
    assert s[1..] == "{" + (body + rest) && s[1..][1..] == body + rest;
    assert '{' !in body;
    CleanAcross(true, body, rest);
    DoubleBrace(s);
  }

  lemma DoubleBrace(s: string)
    requires |s| >= 2 && s[0] == '{' && s[1] == '{'
    ensures KnownName(s).None?
  {
    hide UITokens;
    if KnownName(s).Some? {
      var name := KnownName(s).value;
      KnownIs(s, name);
      assert forall i :: 0 <= i < |name| + 2 ==> s[..|name| + 2][i] == s[i];
      UITokenNames(name);
    }
  }

  /** Translation leaves nothing to translate. */
  lemma {:induction false} TranslationIsClean(open: bool, s: string)
    ensures Clean(open, Translate(open, s))
    decreases |s|
  {
    hide KnownName, UITokens;
    if s == "" {
    } else if !open && KnownName(s).Some? {
      var name := KnownName(s).value;
      TranslateKnown(open, s, name);
      KnownIs(s, name);
      UITokenNames(name);
      TranslationIsClean(false, s[|name| + 2..]);
      TokenIsClean(open, UITokens[name], Translate(false, s[|name| + 2..]));
    } else {
      TranslatePlain(open, s);
      TranslationIsClean(s[0] == '{', s[1..]);
      var t := [s[0]] + Translate(s[0] == '{', s[1..]);
      assert t[1..] == Translate(s[0] == '{', s[1..]);
      NotBrace(t);
      if s[0] == '{' && !open {
        NoNewName(s);
      }
    }
  }

  /** Translating an already translated template changes nothing, for every string. */
  lemma TranslateTwice(s: string)
    ensures Translate(false, Translate(false, s)) == Translate(false, s)
  {
    TranslationIsClean(false, s);
    CleanStays(false, Translate(false, s));
  }

  // ---- translation after filtering ----------------------------------------------------------

  lemma KnownInPrefix(a: string, b: string)
    ensures KnownName(a).Some? ==> KnownName(a + b) == KnownName(a)
  {
    hide UITokens;
    if KnownName(a).Some? {
      var name := KnownName(a).value;
      KnownIs(a, name);
      assert (a + b)[..|name| + 2] == a[..|name| + 2];
      KnownIs(a + b, name);
    }
  }

  lemma {:induction false} CleanPrefix(open: bool, a: string, b: string)
    requires Clean(open, a + b)
    ensures Clean(open, a)
    decreases |a|
  {
    hide KnownName;
    if a != "" {
      KnownInPrefix(a, b);
      assert (a + b)[1..] == a[1..] + b;
      CleanPrefix(a[0] == '{', a[1..], b);
    }
  }

  lemma {:induction false} CleanSuffix(open: bool, a: string, b: string)
    requires Clean(open, a + b)
    ensures Clean(if a == "" then open else a[|a| - 1] == '{', b)
    decreases |a|
  {
    hide KnownName;
    if a == "" {
      assert a + b == b;
    } else {
      assert (a + b)[1..] == a[1..] + b;
      CleanSuffix(a[0] == '{', a[1..], b);
    }
  }

  /** A separator that no token contains keeps clean texts apart. */
  lemma {:induction false} CleanAround(open: bool, a: string, c: char, b: string)
    requires !TokenChar(c) && Clean(open, a) && Clean(false, b)
    ensures Clean(open, a + [c] + b)
    decreases |a|
  {
    hide KnownName, TokenChar;
    var s := a + [c] + b;
    if a == "" {
      SeparatorStarts(s);
      assert s[1..] == b;
    } else {
      KnownBeforeSeparator(a, c, b);
      assert s[1..] == a[1..] + [c] + b;
      CleanAround(a[0] == '{', a[1..], c, b);
    }
  }

  lemma SeparatorStarts(s: string)
    requires s != "" && !TokenChar(s[0])
    ensures KnownName(s).None? && s[0] != '{'
  {
    NotBrace(s);
  }

  lemma KnownBeforeSeparator(a: string, c: char, b: string)
    requires !TokenChar(c)
    ensures KnownName(a + [c] + b).Some? ==> KnownName(a).Some?
  {
    hide UITokens, KnownName;
    var s := a + [c] + b;
    if KnownName(s).Some? {
      var name := KnownName(s).value;
      KnownIs(s, name);
      UITokenNames(name);
      var t := "{" + name + "}";
      assert s[|a|] == c && forall i :: 0 <= i < |t| ==> TokenChar(t[i]) && s[..|t|][i] == s[i];
      assert a[..|t|] == s[..|t|];
      KnownIs(a, name);
    }
  }

  lemma OpenDoesNotMatter(s: string)
    requires Clean(true, s) && (s == "" || s[0] != '{' || (|s| >= 2 && s[1] == '{'))
    ensures Clean(false, s)
  {
    hide KnownName, UITokens;
    if s != "" {
      NotBrace(s);
      if s[0] == '{' {
        DoubleBrace(s);
      }
    }
  }

  ghost predicate AllClean(parts: seq<string>) {
    forall i :: 0 <= i < |parts| ==> Clean(false, parts[i])
  }

  lemma {:induction false} JoinIsClean(parts: seq<string>, sep: char)
    requires AllClean(parts) && !TokenChar(sep)
    ensures Clean(false, Join(parts, [sep]))
  {
    hide Clean, TokenChar;
    if parts == [] {
      NothingIsClean();
    } else if |parts| > 1 {
      JoinIsClean(parts[1..], sep);
      CleanAround(false, parts[0], sep, Join(parts[1..], [sep]));
    }
  }

  lemma NothingIsClean()
    ensures Clean(false, "")
  {
  }

  lemma {:induction false} SplitIsClean(s: string)
    requires Clean(false, s)
    ensures AllClean(Split(s, '|'))
    decreases |s|
  {
    hide Clean, IndexOf, Split;
    var i := IndexOf(s, '|');
    SplitStep(s, '|');
    if i < |s| {
      var front, rest := s[..i], s[i + 1..];
      assert s == front + s[i..] && s == (front + ['|']) + rest;
      CleanPrefix(false, front, s[i..]);
      CleanSuffix(false, front + ['|'], rest);
      SplitIsClean(rest);
    }
  }

  lemma TrimIsClean(s: string)
    requires Clean(false, s)
    ensures Clean(false, TrimSpace(s))
  {
    hide Clean, IsSpace, TrimSpace;
    var i, j := TrimShape(s);
    assert s == s[..i] + s[i..] && s[i..] == s[i..j] + s[j..];
    CleanSuffix(false, s[..i], s[i..]);
    SpaceIsNoBrace();
    CleanPrefix(false, s[i..j], s[j..]);
  }

  lemma SpaceIsNoBrace()
    ensures !IsSpace('{')
  {
  }

  lemma SpanIsClean(run: string, left: bool, right: bool)
    requires Clean(false, run) && FindAll(run, 0) != []
    ensures Clean(false, Span(run, left, right))
  {
    hide Clean, FindAll, Tokens;
    FirstMatch(run, 0);
    LastMatch(run, 0);
    var locs := FindAll(run, 0);
    var l, k := locs[0], locs[|locs| - 1];
    var end := if right then k.end else |run|;
    FrontIsClean(run, end);
    if left {
      assert run[..end][l.start..l.end] == run[l.start..l.end];
      FromTokenIsClean(run[..end], l.start, l.end);
      assert Span(run, left, right) == run[..end][l.start..];
    } else {
      assert Span(run, left, right) == run[..end];
    }
  }

  lemma FrontIsClean(run: string, end: nat)
    requires Clean(false, run) && end <= |run|
    ensures Clean(false, run[..end])
  {
    hide Clean;
    assert run == run[..end] + run[end..];
    CleanPrefix(false, run[..end], run[end..]);
  }

  /** Cutting right before a placeholder, which begins with two braces, leaves clean text clean. */
  lemma FromTokenIsClean(cut: string, start: nat, end: nat)
    requires Clean(false, cut) && start < end <= |cut| && IsToken(cut[start..end])
    ensures Clean(false, cut[start..])
  {
    hide Clean;
    var front, back := cut[..start], cut[start..];
    var t := cut[start..end];
    assert |t| >= 5 && back[0] == t[0] == '{' && back[1] == t[1] == '{';
    assert cut == front + back;
    CleanSuffix(false, front, back);
    if front != "" && front[|front| - 1] == '{' {
      OpenDoesNotMatter(back);
    }
  }

  lemma {:induction false} KeptRunsClean(seg: string, locs: seq<Loc>, pos: nat, from: nat, left: bool,
                                         remove: set<string>)
    requires Locations(seg, pos, locs) && from <= pos && Clean(false, seg[from..])
    ensures AllClean(KeptRuns(seg, locs, pos, from, left, remove))
    decreases |locs|
  {
    hide Clean, Span, FindAll, Tokens, TrimSpace;
    if locs == [] {
      KeptIsClean(seg[from..], left, false);
    } else {
      FirstMatch(seg, pos);
      var l := locs[0];
      if TokenAt(seg, l) !in remove {
        KeptRunsClean(seg, locs[1..], l.end, from, left, remove);
      } else {
        assert seg[from..] == seg[from..l.start] + seg[l.start..] && seg[from..] == seg[from..l.end] + seg[l.end..];
        CleanPrefix(false, seg[from..l.start], seg[l.start..]);
        CleanSuffix(false, seg[from..l.end], seg[l.end..]);
        var t := seg[l.start..l.end];
        assert seg[from..l.end][l.end - from - 1] == t[|t| - 1] == '}';
        KeptIsClean(seg[from..l.start], left, true);
        KeptRunsClean(seg, locs[1..], l.end, l.end, true, remove);
      }
    }
  }

  lemma KeptIsClean(run: string, left: bool, right: bool)
    requires Clean(false, run)
    ensures AllClean(Kept(run, left, right))
  {
    hide Clean, Span, FindAll, TrimSpace;
    if FindAll(run, 0) != [] {
      SpanIsClean(run, left, right);
      TrimIsClean(Span(run, left, right));
    }
  }

  lemma SegmentIsClean(seg: string, remove: set<string>)
    requires Clean(false, seg)
    ensures Clean(false, FilterSegment(seg, remove))
  {
    hide Clean, FindAll, KeptRuns, TrimSpace, NamesRemoved, Join, TokenChar, AllClean;
    TrimIsClean(seg);
    assert seg[0..] == seg;
    KeptRunsClean(seg, FindAll(seg, 0), 0, 0, false, remove);
    SpaceIsNoToken(' ');
    JoinIsClean(KeptRuns(seg, FindAll(seg, 0), 0, 0, false, remove), ' ');
  }

  lemma {:induction false} SegmentsClean(segments: seq<string>, remove: set<string>)
    requires AllClean(segments)
    ensures AllClean(FilterSegments(segments, remove))
  {
    hide Clean, FilterSegment;
    if segments != [] {
      var n := |segments| - 1;
      SegmentsClean(segments[..n], remove);
      SegmentIsClean(segments[n], remove);
    }
  }

  /** Filtering a translated template leaves nothing for the second translation to touch. */
  lemma TranslateAfterFilter(s: string, remove: set<string>)
    ensures var filtered := FilterTemplate(Translate(false, s), remove);
      Translate(false, filtered) == filtered
  {
    hide Clean, Translate, FilterSegments, Split, Join, AllClean;
    var t := Translate(false, s);
    TranslationIsClean(false, s);
    SplitIsClean(t);
    SegmentsClean(Split(t, '|'), remove);
    JoinIsClean(FilterSegments(Split(t, '|'), remove), '|');
    CleanStays(false, FilterTemplate(t, remove));
  }
}
