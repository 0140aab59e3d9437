/** Equal canonical texts mean equal values, whatever order the keys were inserted in. */
module CanonicalEquality {
  import opened Text
  import opened Sorting
  import opened CanonicalJson
  import opened CanonicalRoundTrip

  function Names<T>(members: seq<(string, T)>): (names: seq<string>)
    ensures |names| == |members| && forall i :: 0 <= i < |names| ==> names[i] == members[i].0
  {
    if members == [] then [] else [members[0].0] + Names(members[1..])
  }

  lemma {:induction false} InsertNames<T>(x: (string, T), s: seq<(string, T)>)
    ensures Names(Insert(ByKey<T>(), x, s)) == Insert(ByCodePoint(), x.0, Names(s))
  {
    if s != [] && !StringLeq(x.0, s[0].0) {
      InsertNames(x, s[1..]);
    }
  }

  // Sorting the items by key sorts their keys.
  lemma {:induction false} SortNames<T>(s: seq<(string, T)>)
    ensures Names(Sort(ByKey<T>(), s)) == Sort(ByCodePoint(), Names(s))
  {
    if s != [] {
      SortNames(s[1..]);
      InsertNames(s[0], Sort(ByKey<T>(), s[1..]));
    }
  }

  lemma ItemNamesDistinct(v: PyValue)
    requires v.PyDict? && WellFormed(v) && Items(v.entries).Some?
    ensures Distinct(Names(Items(v.entries).value))
  {
    var items := Items(v.entries).value;
    forall i, j | 0 <= i < j < |items|
      ensures items[i].0 != items[j].0
    {
      assert v.entries[i].0 != v.entries[j].0;
    }
  }

  lemma NamesExactly<T>(members: seq<(string, T)>, x: string)
    ensures x in Names(members) <==> exists m :: m in members && m.0 == x
  {
    if x in Names(members) {
      var i :| 0 <= i < |members| && Names(members)[i] == x;
      assert members[i] in members;
    }
    if m :| m in members && m.0 == x {
      var i :| 0 <= i < |members| && members[i] == m;
      assert Names(members)[i] == x;
    }
  }

  lemma NamesAreKeys(v: PyValue)
    requires v.PyDict? && WellFormed(v) && Supported(v)
    ensures Items(v.entries).Some?
    ensures forall x :: x in Names(Items(v.entries).value) <==> x in Denote(v).members
  {
    hide WellFormed, Functional, DenoteMembers, Names;
    var items := Items(v.entries).value;
    ItemsFunctional(v);
    MembersMap(v, items);
    forall x
      ensures x in Names(items) <==> x in DenoteMembers(v, items)
    {
      NamesExactly(items, x);
    }
  }

  // Dicts with the same keys list them in the same order.
  lemma SameKeysSameOrder(v: PyValue, w: PyValue)
    requires v.PyDict? && WellFormed(v) && Supported(v) && w.PyDict? && WellFormed(w) && Supported(w)
    requires Denote(v).members.Keys == Denote(w).members.Keys
    ensures SortedItems(v.entries).Some? && SortedItems(w.entries).Some?
    ensures Names(SortedItems(v.entries).value) == Names(SortedItems(w.entries).value)
  {
    NamesAreKeys(v);
    NamesAreKeys(w);
    ItemNamesDistinct(v);
    ItemNamesDistinct(w);
    var a, b := Items(v.entries).value, Items(w.entries).value;
    assert forall x :: x in Names(a) <==> x in Denote(v).members.Keys;
    assert forall x :: x in Names(b) <==> x in Denote(w).members.Keys;
    DistinctSameSet(Names(a), Names(b));
    SortNames(a);
    SortNames(b);
    CodePointOrder();
    CodePointNoTies(Names(a));
    SortIgnoresArrival(ByCodePoint(), Names(a), Names(b));
  }

  lemma {:induction false} SameMeaningSameText(v: PyValue, w: PyValue)
    requires WellFormed(v) && Supported(v) && WellFormed(w) && Supported(w) && Denote(v) == Denote(w)
    ensures Encode(v) == Encode(w)
    decreases v, 1, 0
  {
    match v
    case PyList(items) =>
      SameItemsSameText(items, w.items);
    case PyDict(entries) =>
      SameDictsSameText(v, w);
    case _ =>
  }

  lemma {:induction false} SameItemsSameText(a: seq<PyValue>, b: seq<PyValue>)
    requires forall x :: x in a ==> WellFormed(x) && Supported(x)
    requires forall x :: x in b ==> WellFormed(x) && Supported(x)
    requires DenoteItems(a) == DenoteItems(b)
    ensures EncodeItems(a) == EncodeItems(b) && |a| == |b|
    decreases a, 0, 0
  {
    if a != [] && b != [] {
      assert DenoteItems(a)[0] == DenoteItems(b)[0];
      assert DenoteItems(a)[1..] == DenoteItems(a[1..]) && DenoteItems(b)[1..] == DenoteItems(b[1..]);
      SameMeaningSameText(a[0], b[0]);
      SameItemsSameText(a[1..], b[1..]);
    }
  }

  lemma MemberMeaning(owner: PyValue, members: seq<(string, PyValue)>, i: nat)
    requires Functional(members) && forall m :: m in members ==> Supported(m.1) && m.1 < owner
    requires i < |members|
    ensures members[i].0 in DenoteMembers(owner, members)
    ensures DenoteMembers(owner, members)[members[i].0] == Denote(members[i].1)
  {
    MembersMap(owner, members);
    assert members[i] in members;
  }

  // Position by position, equal dicts have equal keys and equal values.
  lemma SortedItemsAlign(v: PyValue, w: PyValue, i: nat)
    requires v.PyDict? && WellFormed(v) && Supported(v) && WellFormed(w) && Supported(w) && Denote(v) == Denote(w)
    requires SortedItems(v.entries).Some? && i < |SortedItems(v.entries).value|
    ensures w.PyDict? && SortedItems(w.entries).Some?
    ensures var a, b := SortedItems(v.entries).value, SortedItems(w.entries).value;
      |a| == |b| && a[i] in a && b[i] in b && Supported(a[i].1) && Supported(b[i].1)
      && a[i].0 == b[i].0 && Denote(a[i].1) == Denote(b[i].1)
  {
    SortedMeansSame(v);
    assert w.PyDict?;
    SortedMeansSame(w);
    SameKeysSameOrder(v, w);
    SortedFunctional(v);
    SortedFunctional(w);
    hide *;
    var a, b := SortedItems(v.entries).value, SortedItems(w.entries).value;
    assert |Names(a)| == |Names(b)| && Names(a)[i] == Names(b)[i];
    assert a[i] in a && b[i] in b;
    MemberMeaning(v, a, i);
    MemberMeaning(w, b, i);
  }

  lemma {:induction false} SameDictsSameText(v: PyValue, w: PyValue)
    requires v.PyDict? && WellFormed(v) && Supported(v) && WellFormed(w) && Supported(w) && Denote(v) == Denote(w)
    ensures Encode(v) == Encode(w)
    decreases v, 0, |v.entries| + 1
  {
    SortedMeansSame(v);
    assert w.PyDict?;
    SortedMeansSame(w);
    SameKeysSameOrder(v, w);
    DictShape(v);
    DictShape(w);
    SortedLength(v);
    hide *;
    var a, b := SortedItems(v.entries).value, SortedItems(w.entries).value;
    assert |Names(a)| == |Names(b)|;
    forall i | 0 <= i < |a|
      ensures a[i].0 == b[i].0 && Denote(a[i].1) == Denote(b[i].1)
    {
      SortedItemsAlign(v, w, i);
    }
    SameMembersSameText(v, a, w, b);
  }

  lemma SortedFunctional(v: PyValue)
    requires v.PyDict? && WellFormed(v) && SortedItems(v.entries).Some?
    ensures Functional(SortedItems(v.entries).value)
  {
    ItemsFunctional(v);
    SortPermutes(ByKey<PyValue>(), Items(v.entries).value);
    SameElements(SortedItems(v.entries).value, Items(v.entries).value);
  }

  lemma {:induction false} SameMembersSameText(v: PyValue, a: seq<(string, PyValue)>, w: PyValue, b: seq<(string, PyValue)>)
    requires forall m :: m in a ==> WellFormed(m.1) && Supported(m.1) && m.1 < v
    requires forall m :: m in b ==> WellFormed(m.1) && Supported(m.1) && m.1 < w
    requires |a| == |b|
    requires forall i :: 0 <= i < |a| ==> a[i].0 == b[i].0 && Denote(a[i].1) == Denote(b[i].1)
    ensures EncodeMembers(v, a) == EncodeMembers(w, b)
    decreases v, 0, |a|
  {
    if a != [] {
      SameMeaningSameText(a[0].1, b[0].1);
      SameMembersSameText(v, a[1..], w, b[1..]);
    }
  }

  // The canonical text identifies the value: the law the content digests rest on.
  lemma EqualTextsIffEqualValues(v: PyValue, w: PyValue)
    requires WellFormed(v) && Supported(v) && WellFormed(w) && Supported(w)
    ensures Encode(v) == Encode(w) <==> Denote(v) == Denote(w)
  {
    if Encode(v) == Encode(w) {
      EncodesSupported(v);
      ValueDecodes(v, Encode(v).value, "");
      ValueDecodes(w, Encode(w).value, "");
    }
    if Denote(v) == Denote(w) {
      SameMeaningSameText(v, w);
    }
  }

  // Values that Python's == does not tell apart: a boolean and its integer have texts of their own.
  lemma BooleansAreNoIntegers(b: bool)
    ensures var n := if b then 1 else 0;
      Denote(PyBool(b)) != Denote(PyInt(n)) && Encode(PyBool(b)) != Encode(PyInt(n))
  {
    assert Decimal(0) == "0" && Decimal(1) == "1";
    assert |"true"| == 4 && |"false"| == 5;
  }

  // Reinserting the entries of a dict in another order leaves its text alone.
  lemma InsertionOrderIsInvisible(entries: seq<(PyKey, PyValue)>, entries': seq<(PyKey, PyValue)>)
    requires multiset(entries) == multiset(entries')
    requires WellFormed(PyDict(entries)) && WellFormed(PyDict(entries'))
    ensures CanonicalDumps(PyDict(entries)) == CanonicalDumps(PyDict(entries'))
  {
    var v, w := PyDict(entries), PyDict(entries');
    SameElements(entries, entries');
    EncodesSupported(v);
    EncodesSupported(w);
    if Supported(v) {
      assert Supported(w);
      SameDenotation(v, w);
      SameMeaningSameText(v, w);
    } else {
      assert !Supported(w);
    }
  }

  lemma SameDenotation(v: PyValue, w: PyValue)
    requires v.PyDict? && w.PyDict? && WellFormed(v) && WellFormed(w) && Supported(v) && Supported(w)
    requires forall e :: e in v.entries <==> e in w.entries
    ensures Denote(v) == Denote(w)
  {
    var a, b := SortedItems(v.entries).value, SortedItems(w.entries).value;
    SortedMeansSame(v);
    SortedMeansSame(w);
    SortedFunctional(v);
    SortedFunctional(w);
    assert forall m :: m in a <==> m in b by {
      forall m
        ensures m in a <==> m in b
      {
        assert m in a <==> (StrKey(m.0), m.1) in v.entries;
        assert m in b <==> (StrKey(m.0), m.1) in w.entries;
      }
    }
    SameMembersSameMap(v, a, w, b);
  }
}
