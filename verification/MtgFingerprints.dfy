/**
 Exactly which lists of secrets secretsFingerprint (internal/mtproto/manager.go) tells apart from
 every other list.  Its separators are not escaped, so this is a short list.
 */
module MtgFingerprints {
  import opened Prelude
  import opened Text
  import opened Sorting
  import opened MtgConfig

  /** The text between a secret and its tag starts at i. */
  predicate MarkAt(s: string, i: nat) {
    i + 5 <= |s| && s[i] == ';' && s[i + 1] == 't' && s[i + 2] == 'a' && s[i + 3] == 'g' && s[i + 4] == '='
  }

  predicate HasMark(s: string) {
    exists i: nat :: i < |s| && MarkAt(s, i)
  }

  /** The printed pair can be read in one way only. */
  predicate OneWay(e: SecretEntry) {
    '=' !in e.name && '=' !in e.secret && !HasMark(e.adTag)
  }

  /** Where the parts of a printed pair stand. */
  lemma PairParts(x: string, y: string, z: string, text: string)
    requires text == x + "=" + y + ";tag=" + z
    ensures |text| == |x| + |y| + |z| + 6
    ensures forall k :: 0 <= k < |x| ==> text[k] == x[k]
    ensures text[|x|] == '='
    ensures forall k :: |x| < k < |x| + 1 + |y| ==> text[k] == y[k - |x| - 1]
    ensures MarkAt(text, |x| + 1 + |y|)
    ensures forall k :: |x| + |y| + 6 <= k < |text| ==> text[k] == z[k - |x| - |y| - 6]
  {
    var front := x + "=" + y;
    assert text == front + ";tag=" + z && |front| == |x| + 1 + |y|;
    assert forall k :: 0 <= k < |front| ==> text[k] == front[k];
  }

  lemma ReadsOneWay(e: SecretEntry, x: string, y: string, z: string)
    requires OneWay(e) && Pair(e) == x + "=" + y + ";tag=" + z
    ensures x == e.name && y == e.secret && z == e.adTag
  {
    hide HasMark;
    var text := Pair(e);
    PairParts(e.name, e.secret, e.adTag, text);
    PairParts(x, y, z, text);
    var own, q := |e.name| + 1 + |e.secret|, |x| + 1 + |y|;
    if q > own {
      NoMarkInside(e.adTag, q - own - 5);
      assert false;
    }
    assert q == own && |x| == |e.name|;
    assert x == text[..|x|] == e.name;
    assert y == text[|x| + 1..q] == e.secret;
    assert z == text[q + 5..] == e.adTag;
  }

  lemma NoMarkInside(s: string, i: int)
    requires !HasMark(s)
    ensures i >= 0 ==> !MarkAt(s, i)
  {
  }

  // ---- lists ------------------------------------------------------------------------------

  lemma SortedOne(e: SecretEntry)
    ensures SecretsFingerprint([e]) == Pair(e)
  {
    OnePair(e);
    assert Sort([Pair(e)]) == [Pair(e)];
  }

  lemma {:induction false} PairsSize(es: seq<SecretEntry>)
    ensures |Pairs(es)| == |es|
    ensures forall p :: p in Pairs(es) ==> exists e :: e in es && p == Pair(e)
  {
    if es != [] {
      PairsSize(es[..|es| - 1]);
      assert es[|es| - 1] in es;
    }
  }

  /** With two entries or more, the fingerprint begins with one pair and goes on after a bar. */
  lemma FirstPair(es: seq<SecretEntry>) returns (e: SecretEntry, rest: seq<string>)
    requires |es| >= 2
    ensures rest != [] && SecretsFingerprint(es) == Pair(e) + "|" + Join(rest, "|")
    ensures exists f :: rest[0] == Pair(f)
  {
    hide Pair, Pairs;
    PairsSize(es);
    var sorted := Sort(Pairs(es));
    assert |sorted| == |multiset(sorted)| == |multiset(Pairs(es))| == |es|;
    SortKeeps(Pairs(es));
    assert sorted[0] in sorted && sorted[1] in sorted;
    e :| e in es && sorted[0] == Pair(e);
    rest := sorted[1..];
    assert rest[0] == sorted[1];
  }

  /** One entry can print what two or more print together. */
  lemma ManyPrintAsOne(es: seq<SecretEntry>) returns (one: SecretEntry)
    requires |es| >= 2
    ensures SecretsFingerprint([one]) == SecretsFingerprint(es)
  {
    hide SecretsFingerprint;
    var e, rest := FirstPair(es);
    one := SecretEntry(e.name, e.secret, e.adTag + "|" + Join(rest, "|"));
    SortedOne(one);
    assert Pair(one) == Pair(e) + "|" + Join(rest, "|");
  }

  lemma MarkInJoin(rest: seq<string>, f: SecretEntry)
    requires rest != [] && rest[0] == Pair(f)
    ensures HasMark(Join(rest, "|"))
  {
    PairParts(f.name, f.secret, f.adTag, rest[0]);
    var text := Join(rest, "|");
    assert |rest[0]| <= |text| && text[..|rest[0]|] == rest[0];
    assert MarkAt(text, |f.name| + 1 + |f.secret|);
  }

  lemma MarkFurther(front: string, back: string)
    requires HasMark(back)
    ensures HasMark(front + back)
  {
    var i: nat :| i < |back| && MarkAt(back, i);
    assert MarkAt(front + back, |front| + i);
  }

  /** A list that prints like an entry readable in one way is that entry. */
  lemma OneWayDecides(e: SecretEntry, b: seq<SecretEntry>)
    requires OneWay(e) && SecretsFingerprint(b) == Pair(e)
    ensures b == [e]
  {
    hide SecretsFingerprint, OneWay, HasMark, Join;
    if |b| == 0 {
      NothingPrints();
      assert false;
    } else if |b| == 1 {
      assert b == [b[0]];
      SortedOne(b[0]);
      ReadsOneWay(e, b[0].name, b[0].secret, b[0].adTag);
    } else {
      var f, rest := FirstPair(b);
      var tail := f.adTag + "|" + Join(rest, "|");
      assert Pair(e) == f.name + "=" + f.secret + ";tag=" + tail;
      ReadsOneWay(e, f.name, f.secret, tail);
      var g :| rest[0] == Pair(g);
      MarkInJoin(rest, g);
      MarkFurther(f.adTag + "|", Join(rest, "|"));
      OneWayHasNoMark(e);
    }
  }

  lemma NothingPrints()
    ensures SecretsFingerprint([]) == ""
  {
  }

  lemma OneWayHasNoMark(e: SecretEntry)
    requires OneWay(e)
    ensures !HasMark(e.adTag)
  {
  }

  lemma ShiftedName(a: string, b: string, secret: string, tag: string)
    ensures Pair(SecretEntry(a + "=" + b, secret, tag)) == Pair(SecretEntry(a, b + "=" + secret, tag))
  {
    assert a + "=" + b + "=" + secret == a + "=" + (b + "=" + secret);
  }

  lemma ShiftedSecret(name: string, secret: string, a: string, b: string)
    ensures Pair(SecretEntry(name, secret, a + ";tag=" + b)) == Pair(SecretEntry(name, secret + ";tag=" + a, b))
  {
    var front := name + "=";
    assert front + secret + ";tag=" + (a + ";tag=" + b) == front + (secret + ";tag=" + a) + ";tag=" + b;
  }

  /** An entry readable in another way has a twin. */
  lemma Twin(e: SecretEntry) returns (f: SecretEntry)
    requires !OneWay(e)
    ensures f != e && Pair(f) == Pair(e)
  {
    hide Pair;
    if '=' in e.name {
      var i :| 0 <= i < |e.name| && e.name[i] == '=';
      var a, b := e.name[..i], e.name[i + 1..];
      assert e.name == a + "=" + b;
      f := SecretEntry(a, b + "=" + e.secret, e.adTag);
      ShiftedName(a, b, e.secret, e.adTag);
      assert |f.name| < |e.name|;
    } else if '=' in e.secret {
      var i :| 0 <= i < |e.secret| && e.secret[i] == '=';
      var a, b := e.secret[..i], e.secret[i + 1..];
      assert e.secret == a + "=" + b;
      f := SecretEntry(e.name + "=" + a, b, e.adTag);
      ShiftedName(e.name, a, b, e.adTag);
      assert |e.name| < |f.name|;
    } else {
      var i: nat :| i < |e.adTag| && MarkAt(e.adTag, i);
      var a, b := e.adTag[..i], e.adTag[i + 5..];
      assert e.adTag == a + ";tag=" + b;
      f := SecretEntry(e.name, e.secret + ";tag=" + a, b);
      ShiftedSecret(e.name, e.secret, a, b);
      assert |f.adTag| < |e.adTag|;
    }
  }

  lemma NobodyElsePrintsNothing(b: seq<SecretEntry>)
    requires SecretsFingerprint(b) == ""
    ensures b == []
  {
    hide SecretsFingerprint, Join;
    if |b| == 1 {
      assert b == [b[0]];
      SortedOne(b[0]);
    } else if |b| >= 2 {
      var e, rest := FirstPair(b);
    }
  }

  lemma DifferentSizes(a: seq<SecretEntry>, b: seq<SecretEntry>)
    requires |a| != |b|
    ensures multiset(a) != multiset(b)
  {
    assert |multiset(a)| == |a| && |multiset(b)| == |b|;
  }

  /** The fingerprint tells a list from every other exactly when it is empty, or one entry readable in one way. */
  lemma DecidesExactly(a: seq<SecretEntry>)
    ensures (forall b :: SecretsFingerprint(b) == SecretsFingerprint(a) ==> multiset(b) == multiset(a))
      <==> a == [] || (|a| == 1 && OneWay(a[0]))
  {
    hide SecretsFingerprint, OneWay, Pair;
    NothingPrints();
    if a == [] {
      forall b | SecretsFingerprint(b) == SecretsFingerprint(a)
        ensures multiset(b) == multiset(a)
      {
        NobodyElsePrintsNothing(b);
      }
    } else if |a| == 1 {
      assert a == [a[0]];
      SortedOne(a[0]);
      if OneWay(a[0]) {
        forall b | SecretsFingerprint(b) == SecretsFingerprint(a)
          ensures multiset(b) == multiset(a)
        {
          OneWayDecides(a[0], b);
        }
      } else {
        var f := Twin(a[0]);
        SortedOne(f);
        assert multiset([f])[f] == 1 && multiset([a[0]])[f] == 0;
      }
    } else {
      var one := ManyPrintAsOne(a);
      DifferentSizes([one], a);
    }
  }
}
