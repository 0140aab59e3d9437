/** Code-point order on strings, and stable sorting by a total preorder. */
module Sorting {

  // Python's <= on str: lexicographic by code point.
  predicate StringLeq(a: string, b: string) {
    if a == [] then true
    else if b == [] then false
    else a[0] < b[0] || (a[0] == b[0] && StringLeq(a[1..], b[1..]))
  }

  lemma {:induction false} StringLeqReflexive(a: string)
    ensures StringLeq(a, a)
  {
    if a != [] {
      StringLeqReflexive(a[1..]);
    }
  }

  // Strings compare by the first character in which they differ, by code point, or by length.
  lemma {:induction false} StringLeqExactly(a: string, b: string, i: nat)
    requires i <= |a| && i <= |b| && a[..i] == b[..i]
    ensures i == |a| ==> StringLeq(a, b)
    ensures i == |b| < |a| ==> !StringLeq(a, b)
    ensures i < |a| && i < |b| && a[i] != b[i] ==> (StringLeq(a, b) <==> a[i] < b[i])
    decreases i
  {
    if i > 0 {
      assert a[0] == a[..i][0] && b[0] == b[..i][0];
      assert a[1..][..i - 1] == a[..i][1..] && b[1..][..i - 1] == b[..i][1..];
      StringLeqExactly(a[1..], b[1..], i - 1);
    }
  }

  lemma {:induction false} StringLeqTotal(a: string, b: string)
    ensures StringLeq(a, b) || StringLeq(b, a)
  {
    if a != [] && b != [] && a[0] == b[0] {
      StringLeqTotal(a[1..], b[1..]);
    }
  }

  lemma {:induction false} StringLeqAntisymmetric(a: string, b: string)
    requires StringLeq(a, b) && StringLeq(b, a)
    ensures a == b
  {
    if a != [] && b != [] {
      StringLeqAntisymmetric(a[1..], b[1..]);
      assert a == [a[0]] + a[1..] && b == [b[0]] + b[1..];
    }
  }

  lemma {:induction false} StringLeqTransitive(a: string, b: string, c: string)
    requires StringLeq(a, b) && StringLeq(b, c)
    ensures StringLeq(a, c)
  {
    if a != [] && a[0] == b[0] == c[0] {
      StringLeqTransitive(a[1..], b[1..], c[1..]);
    }
  }

  // ----- stable sorting

  type Order<!T> = (T, T) -> bool

  ghost predicate Total<T(!new)>(leq: Order<T>) { forall x, y :: leq(x, y) || leq(y, x) }

  ghost predicate Transitive<T(!new)>(leq: Order<T>) { forall x, y, z :: leq(x, y) && leq(y, z) ==> leq(x, z) }

  ghost predicate Sorted<T>(leq: Order<T>, s: seq<T>) {
    forall i, j :: 0 <= i < j < |s| ==> leq(s[i], s[j])
  }

  // No two different elements of s are tied.
  ghost predicate NoTies<T>(leq: Order<T>, s: seq<T>) {
    forall x, y :: x in s && y in s && leq(x, y) && leq(y, x) ==> x == y
  }

  function Insert<T>(leq: Order<T>, x: T, s: seq<T>): seq<T> {
    if s == [] || leq(x, s[0]) then [x] + s else [s[0]] + Insert(leq, x, s[1..])
  }

  function Sort<T>(leq: Order<T>, s: seq<T>): seq<T> {
    if s == [] then [] else Insert(leq, s[0], Sort(leq, s[1..]))
  }

  lemma {:induction false} InsertPermutes<T>(leq: Order<T>, x: T, s: seq<T>)
    ensures multiset(Insert(leq, x, s)) == multiset([x] + s)
  {
    if s != [] && !leq(x, s[0]) {
      InsertPermutes(leq, x, s[1..]);
      assert s == [s[0]] + s[1..];
    }
  }

  lemma {:induction false} SortPermutes<T>(leq: Order<T>, s: seq<T>)
    ensures multiset(Sort(leq, s)) == multiset(s)
  {
    if s != [] {
      SortPermutes(leq, s[1..]);
      InsertPermutes(leq, s[0], Sort(leq, s[1..]));
      assert s == [s[0]] + s[1..];
    }
  }

  lemma SameElements<T>(a: seq<T>, b: seq<T>)
    requires multiset(a) == multiset(b)
    ensures |a| == |b| && forall x :: x in a <==> x in b
  {
    assert |a| == |multiset(a)| && |b| == |multiset(b)|;
    forall x
      ensures x in a <==> x in b
    {
      assert x in a <==> x in multiset(a);
      assert x in b <==> x in multiset(b);
    }
  }

  lemma {:induction false} InsertSorted<T(!new)>(leq: Order<T>, x: T, s: seq<T>)
    requires Total(leq) && Transitive(leq) && Sorted(leq, s)
    ensures Sorted(leq, Insert(leq, x, s))
  {
    if s != [] && !leq(x, s[0]) {
      var t := Insert(leq, x, s[1..]);
      InsertSorted(leq, x, s[1..]);
      InsertPermutes(leq, x, s[1..]);
      SameElements(t, [x] + s[1..]);
      assert leq(s[0], x);
      forall y | y in t
        ensures leq(s[0], y)
      {
        assert y in [x] + s[1..];
        if y != x {
          var i :| 0 <= i < |s[1..]| && s[1..][i] == y;
          assert s[i + 1] == y;
        }
      }
    }
  }

  lemma {:induction false} SortSorts<T(!new)>(leq: Order<T>, s: seq<T>)
    requires Total(leq) && Transitive(leq)
    ensures Sorted(leq, Sort(leq, s))
  {
    if s != [] {
      SortSorts(leq, s[1..]);
      InsertSorted(leq, s[0], Sort(leq, s[1..]));
    }
  }

  lemma HeadIsLeast<T(!new)>(leq: Order<T>, s: seq<T>, x: T)
    requires Total(leq) && Sorted(leq, s) && x in s
    ensures leq(s[0], x)
  {
    var i :| 0 <= i < |s| && s[i] == x;
    assert leq(s[0], s[0]);
  }

  lemma TailLosesHead<T>(s: seq<T>)
    requires s != []
    ensures multiset(s[1..]) == multiset(s) - multiset{s[0]}
  {
    assert s == [s[0]] + s[1..];
  }

  // Without ties there is one way to sort.
  lemma {:induction false} SortedUnique<T(!new)>(leq: Order<T>, a: seq<T>, b: seq<T>)
    requires multiset(a) == multiset(b) && Total(leq) && Sorted(leq, a) && Sorted(leq, b) && NoTies(leq, a)
    ensures a == b
  {
    SameElements(a, b);
    if a != [] {
      HeadIsLeast(leq, a, b[0]);
      HeadIsLeast(leq, b, a[0]);
      TailLosesHead(a);
      TailLosesHead(b);
      SortedUnique(leq, a[1..], b[1..]);
      assert a == [a[0]] + a[1..] && b == [b[0]] + b[1..];
    }
  }

  ghost predicate LeastOf<T>(leq: Order<T>, s: seq<T>, x: T) { forall y :: y in s ==> leq(x, y) }

  lemma FrontLeads<T(!new)>(leq: Order<T>, s: seq<T>)
    requires s != [] && LeastOf(leq, s, s[0])
    ensures Sort(leq, s) != [] && Sort(leq, s)[0] == s[0]
  {
    var tail := Sort(leq, s[1..]);
    SortPermutes(leq, s[1..]);
    SameElements(tail, s[1..]);
    if tail != [] {
      assert tail[0] in s[1..];
      assert tail[0] in s;
    }
  }

  // Of the elements tied for least, the one that came first leads.
  lemma {:induction false} EarliestLeads<T(!new)>(leq: Order<T>, s: seq<T>, i: nat)
    requires Transitive(leq) && i < |s| && LeastOf(leq, s, s[i])
    requires forall j :: 0 <= j < i ==> !LeastOf(leq, s, s[j])
    ensures Sort(leq, s) != [] && Sort(leq, s)[0] == s[i]
    decreases |s|
  {
    if i == 0 {
      FrontLeads(leq, s);
    } else {
      var tail := s[1..];
      assert tail[i - 1] == s[i];
      assert forall y :: y in tail ==> y in s;
      forall j | 0 <= j < i - 1
        ensures !LeastOf(leq, tail, tail[j])
      {
        assert tail[j] == s[j + 1];
        LeastInTail(leq, s, s[i], tail[j]);
      }
      EarliestLeads(leq, tail, i - 1);
      hide LeastOf, Transitive;
      LeastThrough(leq, s, s[i], s[0]);
    }
  }

  // Whatever is as small as a least element is least.
  lemma LeastThrough<T(!new)>(leq: Order<T>, s: seq<T>, least: T, x: T)
    requires Transitive(leq) && LeastOf(leq, s, least)
    ensures leq(x, least) ==> LeastOf(leq, s, x)
  {
  }

  lemma LeastInTail<T(!new)>(leq: Order<T>, s: seq<T>, least: T, x: T)
    requires Transitive(leq) && s != [] && LeastOf(leq, s, least) && least in s[1..]
    ensures LeastOf(leq, s[1..], x) ==> LeastOf(leq, s, x)
  {
    if LeastOf(leq, s[1..], x) {
      LeastThrough(leq, s, least, x);
    }
  }

  // The sorted sequence does not depend on the order the elements came in.
  lemma SortIgnoresArrival<T(!new)>(leq: Order<T>, a: seq<T>, b: seq<T>)
    requires multiset(a) == multiset(b) && Total(leq) && Transitive(leq) && NoTies(leq, a)
    ensures Sort(leq, a) == Sort(leq, b)
  {
    SortPermutes(leq, a);
    SortPermutes(leq, b);
    SortSorts(leq, a);
    SortSorts(leq, b);
    SameElements(Sort(leq, a), a);
    SortedUnique(leq, Sort(leq, a), Sort(leq, b));
  }

  // ----- sequences without repetition

  ghost predicate Distinct<T>(s: seq<T>) {
    forall i, j :: 0 <= i < j < |s| ==> s[i] != s[j]
  }

  lemma {:induction false} DistinctCounts<T>(s: seq<T>, x: T)
    requires Distinct(s)
    ensures multiset(s)[x] == if x in s then 1 else 0
  {
    if s != [] {
      DistinctCounts(s[1..], x);
      assert s == [s[0]] + s[1..];
    }
  }

  lemma DistinctSameSet<T>(a: seq<T>, b: seq<T>)
    requires Distinct(a) && Distinct(b) && forall x :: x in a <==> x in b
    ensures multiset(a) == multiset(b)
  {
    forall x
      ensures multiset(a)[x] == multiset(b)[x]
    {
      DistinctCounts(a, x);
      DistinctCounts(b, x);
    }
  }

  // ----- strings by code point

  function ByCodePoint(): Order<string> {
    (a, b) => StringLeq(a, b)
  }

  lemma CodePointOrder()
    ensures Total(ByCodePoint()) && Transitive(ByCodePoint())
  {
    forall a, b
      ensures ByCodePoint()(a, b) || ByCodePoint()(b, a)
    {
      StringLeqTotal(a, b);
    }
    forall a, b, c | ByCodePoint()(a, b) && ByCodePoint()(b, c)
      ensures ByCodePoint()(a, c)
    {
      StringLeqTransitive(a, b, c);
    }
  }

  lemma CodePointNoTies(s: seq<string>)
    ensures NoTies(ByCodePoint(), s)
  {
    forall x, y | x in s && y in s && ByCodePoint()(x, y) && ByCodePoint()(y, x)
      ensures x == y
    {
      StringLeqAntisymmetric(x, y);
    }
  }
}
