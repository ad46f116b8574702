/**
 What translateUISingleBrackets (internal/sub/remark_vars.go) writes, piece by piece of a template.
 */
module RemarkTranslation {
  import opened Prelude
  import opened Text
  import opened RemarkTokens
  import opened RemarkBrackets

  /** Text without an opening brace. */
  predicate NoBrace(s: string) { '{' !in s }

  /** It is copied. */
  lemma {:induction false} TextStays(open: bool, u: string, v: string)
    requires NoBrace(u)
    ensures Translate(open, u + v) == u + Translate(if u == "" then open else false, v)
    decreases |u|
  {
    hide KnownName, Translate;
    if u == "" {
      assert u + v == v;
    } else {
      var s := u + v;
      NotBrace(s);
      TranslatePlain(open, s);
      assert s[1..] == u[1..] + v && s[0] == u[0] && u[0] in u;
      TextStays(false, u[1..], v);
      assert [u[0]] + (u[1..] + Translate(false, v)) == u + Translate(false, v);
    }
  }

  /** A known name in single braces gets its double-brace form. */
  lemma KnownTranslates(u: string, name: string, v: string)
    requires NoBrace(u) && name in UITokens
    ensures Translate(false, u + "{" + name + "}" + v) == u + "{{" + UITokens[name] + "}}" + Translate(false, v)
  {
    hide KnownName, Translate, UITokens;
    var s := "{" + name + "}" + v;
    assert u + "{" + name + "}" + v == u + s;
    TextStays(false, u, s);
    assert s[..|name| + 2] == "{" + name + "}" && s[|name| + 2..] == v;
    KnownIs(s, name);
    TranslateKnown(false, s, name);
  }

  /** Any other text in single braces stays. */
  lemma UnknownStays(u: string, name: string, v: string)
    requires NoBrace(u) && NoBrace(name) && '}' !in name && name !in UITokens
    ensures Translate(false, u + "{" + name + "}" + v) == u + "{" + name + "}" + Translate(false, v)
  {
    hide KnownName, Translate, UITokens;
    var s := "{" + name + "}" + v;
    assert u + "{" + name + "}" + v == u + s;
    TextStays(false, u, s);
    NotKnown(name, v);
    TranslatePlain(false, s);
    assert s[1..] == (name + "}") + v;
    TextStays(true, name + "}", v);
  }

  lemma NotKnown(name: string, v: string)
    requires '}' !in name && name !in UITokens
    ensures KnownName("{" + name + "}" + v).None?
  {
    hide UITokens;
    var s := "{" + name + "}" + v;
    assert s[1..] == name + "}" + v && s[1..][..|name|] == name && s[1..][|name|] == '}';
    IndexAt(s[1..], '}', |name|);
  }

  /** What is in double braces already stays, known or not. */
  lemma DoubleStays(u: string, name: string, v: string)
    requires NoBrace(u) && NoBrace(name)
    ensures Translate(false, u + "{{" + name + "}}" + v) == u + "{{" + name + "}}" + Translate(false, v)
  {
    hide KnownName, Translate, UITokens;
    var s := "{{" + name + "}}" + v;
    assert u + "{{" + name + "}}" + v == u + s;
    TextStays(false, u, s);
    DoubleBrace(s);
    TranslatePlain(false, s);
    TranslatePlain(true, s[1..]);
    assert s[1..][1..] == (name + "}}") + v;
    TextStays(true, name + "}}", v);
    assert [s[0]] + ([s[1]] + ((name + "}}") + Translate(false, v))) == "{{" + name + "}}" + Translate(false, v);
  }

  /** The names known in single braces, and what each stands for: three of them change, the others keep their name. */
  lemma Renamed(name: string)
    ensures name in UITokens <==> name in {"DATA_USAGE", "DATA_LEFT", "DATA_LIMIT"} || KeepsName(name)
    ensures name in UITokens ==>
      UITokens[name] == (if name == "DATA_USAGE" then "TRAFFIC_USED"
                         else if name == "DATA_LEFT" then "TRAFFIC_LEFT"
                         else if name == "DATA_LIMIT" then "TRAFFIC_TOTAL"
                         else name)
  {
  }

  predicate KeepsName(name: string) {
    name in {"EMAIL", "DAYS_LEFT", "EXPIRE_DATE", "JALALI_EXPIRE_DATE", "TIME_LEFT", "STATUS_EMOJI",
             "USAGE_PERCENTAGE", "PROTOCOL", "TRANSPORT", "SECURITY"}
  }

  /** A placeholder is two braces, a name of capital letters and underscores, and two braces. */
  lemma PlaceholderExactly(name: string)
    ensures IsToken("{{" + name + "}}") <==>
      name != "" && forall i :: 0 <= i < |name| ==> 'A' <= name[i] <= 'Z' || name[i] == '_'
    ensures IsToken("{{" + name + "}}") ==> NameOf("{{" + name + "}}") == name
  {
    var t := "{{" + name + "}}";
    assert t[2..|t| - 2] == name;
    assert forall i :: 0 <= i < |name| ==> t[i + 2] == name[i];
  }
}
