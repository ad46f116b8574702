/** slices.Sort on strings: byte order, which for UTF-8 text is the order of code points. */
module Sorting {

  predicate Le(a: string, b: string) {
    a == "" || (b != "" && (a[0] < b[0] || (a[0] == b[0] && Le(a[1..], b[1..]))))
  }

  lemma {:induction false} LeTotal(a: string, b: string)
    ensures Le(a, b) || Le(b, a)
  {
    if a != "" && b != "" && a[0] == b[0] {
      LeTotal(a[1..], b[1..]);
    }
  }

  lemma {:induction false} LeAntisymmetric(a: string, b: string)
    requires Le(a, b) && Le(b, a)
    ensures a == b
  {
    if a != "" {
      LeAntisymmetric(a[1..], b[1..]);
      assert a == [a[0]] + a[1..] && b == [b[0]] + b[1..];
    }
  }

  lemma {:induction false} LeTransitive(a: string, b: string, c: string)
    requires Le(a, b) && Le(b, c)
    ensures Le(a, c)
  {
    if a != "" && a[0] == b[0] == c[0] {
      LeTransitive(a[1..], b[1..], c[1..]);
    }
  }

  /** x is a lower bound of s. */
  ghost predicate Below(x: string, s: seq<string>) {
    forall y :: y in s ==> Le(x, y)
  }

  ghost predicate Ordered(s: seq<string>) {
    s == [] || (Below(s[0], s[1..]) && Ordered(s[1..]))
  }

  function Insert(x: string, s: seq<string>): (r: seq<string>)
    ensures multiset(r) == multiset(s) + multiset{x}
  {
    if s == [] then [x]
    else if Le(x, s[0]) then
      [x] + s
    else
      assert s == [s[0]] + s[1..];
      [s[0]] + Insert(x, s[1..])
  }

  function Sort(s: seq<string>): (r: seq<string>)
    ensures multiset(r) == multiset(s)
  {
    if s == [] then []
    else
      assert s == [s[0]] + s[1..];
      Insert(s[0], Sort(s[1..]))
  }

  lemma BelowSame(x: string, s: seq<string>, r: seq<string>)
    requires multiset(s) == multiset(r) && Below(x, s)
    ensures Below(x, r)
  {
    forall y | y in r
      ensures Le(x, y)
    {
      assert y in multiset(r);
    }
  }

  lemma {:induction false} InsertOrdered(x: string, s: seq<string>)
    requires Ordered(s)
    ensures Ordered(Insert(x, s))
  {
    if s != [] {
      LeTotal(x, s[0]);
      if Le(x, s[0]) {
        forall y | y in s
          ensures Le(x, y)
        {
          if y != s[0] {
            assert y in s[1..];
            LeTransitive(x, s[0], y);
          }
        }
        assert ([x] + s)[1..] == s;
      } else {
        InsertOrdered(x, s[1..]);
        var tail := Insert(x, s[1..]);
        BelowSame(s[0], s[1..] + [x], tail);
        assert ([s[0]] + tail)[1..] == tail;
      }
    }
  }

  lemma {:induction false} SortOrdered(s: seq<string>)
    ensures Ordered(Sort(s))
  {
    if s != [] {
      SortOrdered(s[1..]);
      InsertOrdered(s[0], Sort(s[1..]));
    }
  }

  lemma Head(s: seq<string>, y: string)
    requires Ordered(s) && y in s
    ensures Le(s[0], y)
  {
    if y == s[0] {
      LeTotal(y, y);
    } else {
      assert y in s[1..];
    }
  }

  lemma TailElements(s: seq<string>)
    requires s != []
    ensures multiset(s[1..]) == multiset(s) - multiset{s[0]}
  {
    assert s == [s[0]] + s[1..];
  }

  lemma {:induction false} OrderedUnique(a: seq<string>, b: seq<string>)
    requires Ordered(a) && Ordered(b) && multiset(a) == multiset(b)
    ensures a == b
  {
    hide Le;
    assert |a| == |multiset(a)| == |multiset(b)| == |b|;
    if a != [] {
      assert a[0] in multiset(b) && b[0] in multiset(a);
      Head(a, b[0]);
      Head(b, a[0]);
      LeAntisymmetric(a[0], b[0]);
      TailElements(a);
      TailElements(b);
      OrderedUnique(a[1..], b[1..]);
      assert a == [a[0]] + a[1..] && b == [b[0]] + b[1..];
    }
  }

  /** Sorting identifies exactly the lists with the same elements, counted. */
  lemma SortDecides(a: seq<string>, b: seq<string>)
    ensures Sort(a) == Sort(b) <==> multiset(a) == multiset(b)
  {
    SortOrdered(a);
    SortOrdered(b);
    if multiset(a) == multiset(b) {
      OrderedUnique(Sort(a), Sort(b));
    }
  }
}
