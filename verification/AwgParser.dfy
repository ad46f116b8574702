/**
 How ParseConfigFile (internal/awg/config.go) reads files it has not printed: what it passes over,
 which section a line belongs to, and what names a peer.
 */
module AwgParser {
  import opened Prelude
  import opened Text
  import opened AwgConfig

  predicate IsComment(raw: string) { HasPrefix(TrimSpace(raw), "#") }

  predicate IsHeader(raw: string) {
    var line := TrimSpace(raw);
    !IsComment(raw) && HasPrefix(line, "[") && HasSuffix(line, "]")
  }

  lemma RunOn(lines: seq<string>, line: string)
    ensures RunLines(lines + [line]) == StepLine(RunLines(lines), line)
  {
    hide StepLine;
    assert (lines + [line])[..|lines + [line]| - 1] == lines;
  }

  // ---- lines passed over --------------------------------------------------------------------

  /** Blank; a comment outside a peer; neither a header nor key = value; or a key in some other section. */
  predicate PassedOver(section: string, raw: string) {
    || TrimSpace(raw) == ""
    || (IsComment(raw) && section != "peer")
    || (!IsComment(raw) && !IsHeader(raw) && ('=' !in TrimSpace(raw) || section !in {"interface", "peer"}))
  }

  lemma StepPassesOver(st: State, raw: string)
    requires PassedOver(st.section, raw)
    ensures StepLine(st, raw) == st
  {
    hide TrimSpace, IndexOf, AssignInterfaceField, AssignPeerField, Flush;
  }

  /** Wherever such a line stands, the file reads as it does without it. */
  lemma {:induction false} LineIgnored(a: seq<string>, raw: string, b: seq<string>)
    requires PassedOver(RunLines(a).section, raw)
    ensures RunLines(a + [raw] + b) == RunLines(a + b)
  {
    hide StepLine, RunLines, PassedOver;
    if b == [] {
      assert a + [raw] + [] == a + [raw] && a + [] == a;
      RunOn(a, raw);
      StepPassesOver(RunLines(a), raw);
    } else {
      var n := |b| - 1;
      LineIgnored(a, raw, b[..n]);
      assert a + [raw] + b == (a + [raw] + b[..n]) + [b[n]] && a + b == (a + b[..n]) + [b[n]];
      RunOn(a + [raw] + b[..n], b[n]);
      RunOn(a + b[..n], b[n]);
    }
  }

  /** Keys are told apart without regard to case; the Kelvin sign counts as a k, a dotted capital I as an i. */
  lemma CaseIgnored(c: char)
    ensures ToLower([c]) == (if 'A' <= c <= 'Z' then ['a' + (c - 'A')]
                             else if c as int == 0x212A then "k"
                             else if c as int == 0x130 then "i"
                             else [c])
  {
  }

  /** The keys of the interface section, in lower case. */
  predicate KnownKey(k: string) {
    k in {"privatekey", "listenport", "address", "mtu", "dns", "jc", "jmin", "jmax", "s1", "s2", "s3", "s4",
          "h1", "h2", "h3", "h4", "i1", "i2", "i3", "i4", "i5", "postup", "postdown"}
  }

  /** A key the interface section does not know sets nothing. */
  lemma UnknownKey(p: ParsedInterface, key: string, value: string)
    requires !KnownKey(ToLower(key))
    ensures AssignInterfaceField(p, key, value) == p
  {
    hide ToLower, ParseInt;
  }

  /** Allowed addresses: the visible parts between commas, trimmed; none for an empty value or "(none)". */
  lemma AllowedAddresses(a: string, b: string)
    requires Tight(a) && Tight(b) && a != "" && b != "" && ',' !in a && ',' !in b
    ensures SplitAllowedIPs("") == [] && SplitAllowedIPs("(none)") == []
    ensures a != "(none)" ==> SplitAllowedIPs(a) == [a]
    ensures SplitAllowedIPs(a + "," + b) == [a, b] && SplitAllowedIPs(a + ",," + b) == [a, b]
  {
    hide TrimSpace, Split, IsSpace, Tight;
    TightTrims(a);
    TightTrims(b);
    BlankTrims("");
    SplitHead(a, ',', b);
    SplitHead(a, ',', "," + b);
    SplitHead("", ',', b);
    SplitHead(b, ',', "");
    assert a + [','] + b == a + "," + b && a + [','] + ("," + b) == a + ",," + b && "" + [','] + b == "," + b;
    assert (a + "," + b)[|a|] == ',' && (a + ",," + b)[|a|] == ',' && "(none)"[0] == '(';
    KeptParts(a, b);
    assert ',' !in "(none)";
  }

  lemma KeptParts(a: string, b: string)
    requires TrimSpace(a) == a && TrimSpace(b) == b && TrimSpace("") == "" && a != "" && b != ""
    ensures TrimmedNonBlank([a]) == [a] && TrimmedNonBlank([a, b]) == [a, b] && TrimmedNonBlank([a, "", b]) == [a, b]
    ensures [a] + [b] == [a, b] && [a] + ([""] + [b]) == [a, "", b]
  {
    hide TrimSpace;
    assert [a][..0] == [] && [a, b][..1] == [a] && [a, "", b][..2] == [a, ""] && [a, ""][..1] == [a];
    assert TrimmedNonBlank([a]) == [] + [a];
    assert TrimmedNonBlank([a, ""]) == [a] + [];
  }

  // ---- sections -----------------------------------------------------------------------------

  ghost predicate NoHeaders(lines: seq<string>) {
    forall i :: 0 <= i < |lines| ==> !IsHeader(lines[i])
  }

  lemma StepKeepsSection(st: State, raw: string)
    requires !IsHeader(raw)
    ensures StepLine(st, raw).section == st.section
  {
    hide TrimSpace, IndexOf, AssignInterfaceField, AssignPeerField, Flush;
  }

  /** A line belongs to the section of the last header before it, whatever its case. */
  lemma {:induction false} SectionIsLastHeader(a: seq<string>, name: string, b: seq<string>)
    requires NoHeaders(b) && name != "" && Plain(name)
    ensures RunLines(a + ["[" + name + "]"] + b).section == ToLower(name)
  {
    hide StepLine, RunLines, IsHeader, ToLower, Plain;
    var h := "[" + name + "]";
    if b == [] {
      assert a + [h] + [] == a + [h];
      RunOn(a, h);
      HeaderOpens(RunLines(a), name);
    } else {
      var n := |b| - 1;
      SectionIsLastHeader(a, name, b[..n]);
      assert a + [h] + b == (a + [h] + b[..n]) + [b[n]];
      RunOn(a + [h] + b[..n], b[n]);
      StepKeepsSection(RunLines(a + [h] + b[..n]), b[n]);
    }
  }

  /** A name without brackets. */
  predicate Plain(name: string) { '[' !in name && ']' !in name }

  lemma HeaderOpens(st: State, name: string)
    requires name != "" && Plain(name)
    ensures StepLine(st, "[" + name + "]").section == ToLower(name)
    ensures ToLower(name) == "peer" ==> StepLine(st, "[" + name + "]").peer == Some(NewPeer)
    ensures st.section != "peer" || st.peer.None? ==>
      StepLine(st, "[" + name + "]").parsed == st.parsed && StepLine(st, "[" + name + "]").comment == st.comment
    ensures st.section == "peer" && st.peer.Some? ==> StepLine(st, "[" + name + "]").comment == ""
  {
    hide TrimSpace, ToLower, Flush, TrimBrackets, IndexOf;
    HeaderReads(name);
  }

  lemma HeaderReads(name: string)
    requires name != "" && Plain(name)
    ensures var h := "[" + name + "]";
      TrimSpace(h) == h && HasPrefix(h, "[") && HasSuffix(h, "]") && !HasPrefix(h, "#") && TrimBrackets(h) == name
  {
    hide TrimSpace;
    var h := "[" + name + "]";
    TightTrims(h);
    assert h[0] == '[' && h[|h| - 1] == ']';
    assert h[1..] == name + "]";
    assert (name + "]")[0] == name[0] && name[0] in name && (name + "]")[..|name|] == name && name[|name| - 1] in name;
    assert TrimBrackets(name) == name;
  }

  // ---- names of peers --------------------------------------------------------------------------

  /** What a line says after its '#'; nothing for other lines. */
  function CommentOf(raw: string): string {
    if IsComment(raw) then TrimSpace(TrimSpace(raw)[1..]) else ""
  }

  ghost predicate FirstSays(lines: seq<string>, c: string, i: nat) {
    i < |lines| && CommentOf(lines[i]) == c && forall j :: 0 <= j < i ==> CommentOf(lines[j]) == ""
  }

  /** c is what the first comment that says something says; none does: empty. */
  ghost predicate FirstComment(lines: seq<string>, c: string) {
    || (c == "" && forall i :: 0 <= i < |lines| ==> CommentOf(lines[i]) == "")
    || (c != "" && exists i: nat :: FirstSays(lines, c, i))
  }

  lemma StepInPeer(st: State, raw: string)
    requires st.section == "peer" && st.peer.Some? && !IsHeader(raw)
    ensures var r := StepLine(st, raw);
      && r.section == "peer" && r.peer.Some? && r.peer.value.name == st.peer.value.name && r.parsed == st.parsed
      && r.comment == if st.comment == "" then CommentOf(raw) else st.comment
  {
    hide TrimSpace, IndexOf, ToLower, ParseInt, SplitAllowedIPs, Flush;
  }

  lemma FirstCommentNext(lines: seq<string>, c: string, raw: string)
    requires FirstComment(lines, c)
    ensures FirstComment(lines + [raw], if c == "" then CommentOf(raw) else c)
  {
    hide CommentOf;
    var more := lines + [raw];
    assert more[|lines|] == raw;
    assert forall i :: 0 <= i < |lines| ==> more[i] == lines[i];
    if c != "" {
      var i: nat :| FirstSays(lines, c, i);
      assert FirstSays(more, c, i);
    } else if CommentOf(raw) != "" {
      assert FirstSays(more, CommentOf(raw), |lines|);
    }
  }

  /** Within a peer's lines, its first comment that says something is kept to name it. */
  lemma {:induction false} CommentInPeer(st: State, lines: seq<string>, body: seq<string>)
    requires st == RunLines(lines) && st.section == "peer" && st.peer == Some(NewPeer) && st.comment == ""
    requires NoHeaders(body)
    ensures var r := RunLines(lines + body);
      r.section == "peer" && r.peer.Some? && r.peer.value.name == "" && r.parsed == st.parsed
      && FirstComment(body, r.comment)
  {
    hide StepLine, RunLines, IsHeader, FirstComment;
    if body == [] {
      assert lines + [] == lines;
      NoComment();
    } else {
      var n := |body| - 1;
      CommentInPeer(st, lines, body[..n]);
      assert lines + body == (lines + body[..n]) + [body[n]] && body == body[..n] + [body[n]];
      RunOn(lines + body[..n], body[n]);
      var before := RunLines(lines + body[..n]);
      StepInPeer(before, body[n]);
      FirstCommentNext(body[..n], before.comment, body[n]);
    }
  }

  lemma NoComment()
    ensures FirstComment([], "")
  {
  }

  /**
   A peer section: when it ends, at the end of the file or at the next header, a peer with a key is
   appended under that name, and one without a key is not.
   */
  lemma PeerIsNamed(lines: seq<string>, body: seq<string>) returns (p: ParsedPeer)
    requires var st := RunLines(lines); st.section == "peer" && st.peer == Some(NewPeer) && st.comment == ""
    requires NoHeaders(body)
    ensures FirstComment(body, p.name)
    ensures var before := RunLines(lines).parsed;
      Flush(RunLines(lines + body)) == if p.publicKey == "" then before else before.(peers := before.peers + [p])
  {
    hide StepLine, RunLines, IsHeader, FirstComment;
    CommentInPeer(RunLines(lines), lines, body);
    var r := RunLines(lines + body);
    p := r.peer.value.(name := r.comment);
  }

  /** A header ends the section before it, and opens a peer's with nothing said about it. */
  lemma HeaderEndsPeer(st: State, name: string)
    requires name != "" && Plain(name) && st.section == "peer" && st.peer.Some?
    ensures StepLine(st, "[" + name + "]").parsed == Flush(st) && StepLine(st, "[" + name + "]").comment == ""
  {
    hide TrimSpace, ToLower, Flush, TrimBrackets, IndexOf;
    HeaderReads(name);
  }
}
