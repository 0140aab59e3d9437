/** Equality, membership and list order of expression values: what the recursive comparisons decide. */
module ExprEquality {
  import Sorting
  import opened Wrappers
  import opened ExprAst
  import opened ExprEval

  // No key twice, as in every dict.
  predicate DistinctKeys(entries: Entries) {
    forall i, j :: 0 <= i < j < |entries| ==> entries[i].0 != entries[j].0
  }

  // ----- dict lookup

  lemma {:induction false} LookupExactly(entries: Entries, key: string)
    ensures Lookup(entries, key).Some? <==> exists i :: 0 <= i < |entries| && entries[i].0 == key
    ensures forall i :: 0 <= i < |entries| && entries[i].0 == key && DistinctKeys(entries)
              ==> Lookup(entries, key) == Some(entries[i].1)
  {
    if entries != [] {
      LookupExactly(entries[1..], key);
      assert forall i :: 1 <= i < |entries| ==> entries[i] == entries[1..][i - 1];
    }
  }

  function KeySet(entries: Entries): set<string> { set i | 0 <= i < |entries| :: entries[i].0 }

  lemma {:induction false} KeySetSize(entries: Entries)
    requires DistinctKeys(entries)
    ensures |KeySet(entries)| == |entries|
  {
    if entries != [] {
      var last := |entries| - 1;
      var init := entries[..last];
      KeySetSize(init);
      assert entries == init + [entries[last]];
      assert KeySet(entries) == KeySet(init) + {entries[last].0};
    }
  }

  lemma SameSizeSameSet(a: set<string>, b: set<string>)
    requires a <= b && |a| == |b|
    ensures a == b
  {
    assert b == a + (b - a);
    assert |b| == |a| + |b - a|;
  }

  // ----- equality, kind by kind

  // Every key of a is in b, with the same value.
  ghost predicate CoveredBy(a: Entries, b: Entries) {
    forall i :: 0 <= i < |a| ==> Lookup(b, a[i].0).Some? && Same(a[i].1, Lookup(b, a[i].0).value)
  }

  lemma {:induction false} EntriesCovered(owner: Value, a: Entries, b: Entries)
    requires forall x :: x in a ==> x.1 < owner
    ensures SameEntries(owner, a, b) <==> CoveredBy(a, b)
    decreases |a|
  {
    hide Lookup;
    if a != [] {
      EntriesCovered(owner, a[1..], b);
      assert forall i :: 1 <= i < |a| ==> a[i] == a[1..][i - 1];
    }
  }

  lemma {:induction false} ItemsPairwise(a: seq<Value>, b: seq<Value>)
    ensures SameItems(a, b) <==> |a| == |b| && forall i :: 0 <= i < |a| ==> Same(a[i], b[i])
    decreases |a|
  {
    hide Same;
    if a != [] && |a| == |b| {
      ItemsPairwise(a[1..], b[1..]);
      assert forall i :: 1 <= i < |a| ==> a[i] == a[1..][i - 1] && b[i] == b[1..][i - 1];
    }
  }

  // Numbers, with booleans as 0 and 1, are equal by value, strings by their characters, lists item by item; null equals
  // itself alone, and no value equals one of another kind.
  lemma SameExactly(a: Value, b: Value)
    ensures Magnitude(a).Some? || Magnitude(b).Some? ==> (Same(a, b) <==> Magnitude(a) == Magnitude(b))
    ensures a.VStr? || b.VStr? || a.VNone? || b.VNone? ==> (Same(a, b) <==> a == b)
    ensures a.VList? ==> (Same(a, b) <==> b.VList? && |a.items| == |b.items|
                                          && forall i :: 0 <= i < |a.items| ==> Same(a.items[i], b.items[i]))
    ensures Same(a, b) ==> a.VList? == b.VList? && a.VDict? == b.VDict?
  {
    if a.VList? && b.VList? {
      ItemsPairwise(a.items, b.items);
    }
    hide SameItems, SameEntries;
  }

  // The same keys, and under each the same value, in whatever order.
  ghost predicate SameMapping(a: Entries, b: Entries) {
    forall k: string :: Lookup(a, k).Some? == Lookup(b, k).Some?
                        && (Lookup(a, k).Some? ==> Same(Lookup(a, k).value, Lookup(b, k).value))
  }

  lemma DictsSameExactly(a: Value, b: Value)
    requires a.VDict? && b.VDict? && DistinctKeys(a.entries) && DistinctKeys(b.entries)
    ensures Same(a, b) <==> SameMapping(a.entries, b.entries)
  {
    EntriesCovered(a, a.entries, b.entries);
    assert Same(a, b) <==> |a.entries| == |b.entries| && CoveredBy(a.entries, b.entries);
    hide Same, SameEntries;
    MappingCovered(a.entries, b.entries);
  }

  lemma MappingCovered(a: Entries, b: Entries)
    requires DistinctKeys(a) && DistinctKeys(b)
    ensures |a| == |b| && CoveredBy(a, b) <==> SameMapping(a, b)
  {
    hide Same, Lookup, DistinctKeys;
    KeySetSize(a);
    KeySetSize(b);
    KeysLookUp(a);
    KeysLookUp(b);
    if |a| == |b| && CoveredBy(a, b) {
      SameSizeSameSet(KeySet(a), KeySet(b));
      forall k: string | Lookup(a, k).Some?
        ensures Same(Lookup(a, k).value, Lookup(b, k).value)
      {
        var i :| 0 <= i < |a| && a[i].0 == k;
        assert Lookup(a, a[i].0) == Some(a[i].1);
      }
    }
    if SameMapping(a, b) {
      assert KeySet(a) == KeySet(b);
    }
  }

  lemma KeysLookUp(a: Entries)
    requires DistinctKeys(a)
    ensures forall k: string :: k in KeySet(a) <==> Lookup(a, k).Some?
    ensures forall i :: 0 <= i < |a| ==> Lookup(a, a[i].0) == Some(a[i].1)
  {
    hide Lookup, DistinctKeys;
    forall k: string
      ensures k in KeySet(a) <==> Lookup(a, k).Some?
    {
      LookupExactly(a, k);
    }
    forall i | 0 <= i < |a|
      ensures Lookup(a, a[i].0) == Some(a[i].1)
    {
      LookupExactly(a, a[i].0);
    }
  }

  // ----- an equivalence

  // Distinct keys at every depth.
  predicate WellFormed(v: Value) {
    match v
    case VList(items) => forall x :: x in items ==> WellFormed(x)
    case VDict(entries) => DistinctKeys(entries) && forall x :: x in entries ==> WellFormed(x.1)
    case _ => true
  }

  lemma LookedUpSmaller(v: Value, k: string)
    requires v.VDict? && WellFormed(v) && Lookup(v.entries, k).Some?
    ensures Lookup(v.entries, k).value < v && WellFormed(Lookup(v.entries, k).value)
  {
    LookupExactly(v.entries, k);
    var i :| 0 <= i < |v.entries| && v.entries[i].0 == k;
    assert v.entries[i] in v.entries;
  }

  lemma {:induction false} SameReflexive(v: Value)
    requires WellFormed(v)
    ensures Same(v, v)
    decreases v
  {
    SameExactly(v, v);
    hide Same, Lookup;
    if v.VList? {
      forall i | 0 <= i < |v.items|
        ensures Same(v.items[i], v.items[i])
      {
        assert v.items[i] in v.items;
        SameReflexive(v.items[i]);
      }
    } else if v.VDict? {
      forall k: string | Lookup(v.entries, k).Some?
        ensures Same(Lookup(v.entries, k).value, Lookup(v.entries, k).value)
      {
        LookedUpSmaller(v, k);
        SameReflexive(Lookup(v.entries, k).value);
      }
      DictsSameExactly(v, v);
    }
  }

  lemma {:induction false} SameSymmetric(a: Value, b: Value)
    requires WellFormed(a) && WellFormed(b) && Same(a, b)
    ensures Same(b, a)
    decreases a
  {
    SameExactly(a, b);
    SameExactly(b, a);
    hide Same, Lookup;
    if a.VList? {
      forall i | 0 <= i < |a.items|
        ensures Same(b.items[i], a.items[i])
      {
        assert a.items[i] in a.items && b.items[i] in b.items;
        SameSymmetric(a.items[i], b.items[i]);
      }
    } else if a.VDict? {
      DictsSameExactly(a, b);
      forall k: string | Lookup(b.entries, k).Some?
        ensures Same(Lookup(b.entries, k).value, Lookup(a.entries, k).value)
      {
        LookedUpSmaller(a, k);
        LookedUpSmaller(b, k);
        SameSymmetric(Lookup(a.entries, k).value, Lookup(b.entries, k).value);
      }
      DictsSameExactly(b, a);
    }
  }

  lemma {:induction false} SameTransitive(a: Value, b: Value, c: Value)
    requires WellFormed(a) && WellFormed(b) && WellFormed(c) && Same(a, b) && Same(b, c)
    ensures Same(a, c)
    decreases a
  {
    SameExactly(a, b);
    SameExactly(b, c);
    SameExactly(a, c);
    hide Same, Lookup;
    if a.VList? {
      forall i | 0 <= i < |a.items|
        ensures Same(a.items[i], c.items[i])
      {
        assert a.items[i] in a.items && b.items[i] in b.items && c.items[i] in c.items;
        SameTransitive(a.items[i], b.items[i], c.items[i]);
      }
    } else if a.VDict? {
      DictsSameExactly(a, b);
      DictsSameExactly(b, c);
      forall k: string | Lookup(a.entries, k).Some?
        ensures Same(Lookup(a.entries, k).value, Lookup(c.entries, k).value)
      {
        LookedUpSmaller(a, k);
        LookedUpSmaller(b, k);
        LookedUpSmaller(c, k);
        SameTransitive(Lookup(a.entries, k).value, Lookup(b.entries, k).value, Lookup(c.entries, k).value);
      }
      DictsSameExactly(a, c);
    }
  }

  // ----- membership

  // A string contains its substrings, a list what equals one of its items, a dict its keys; nothing else is a collection.
  lemma ContainsExactly(collection: Value, item: Value)
    ensures collection.VStr? && item.VStr? ==>
      (Contains(collection, item) == Ok(true) <==> exists before, after :: collection.s == before + item.s + after)
    ensures collection.VList? ==>
      (Contains(collection, item) == Ok(true) <==> exists i :: 0 <= i < |collection.items| && Same(collection.items[i], item))
    ensures collection.VDict? && item.VStr? ==>
      (Contains(collection, item) == Ok(true) <==> exists i :: 0 <= i < |collection.entries| && collection.entries[i].0 == item.s)
    ensures Contains(collection, item).Err?
        <==> !(collection.VList? || (collection.VStr? && item.VStr?) || (collection.VDict? && !item.VList? && !item.VDict?))
    ensures Contains(collection, item).Err? ==> Contains(collection, item).error == TypeMismatch
  {
    hide Same;
    if collection.VStr? && item.VStr? {
      SubstringExactly(item.s, collection.s);
    }
    if collection.VDict? && item.VStr? {
      LookupExactly(collection.entries, item.s);
    }
    hide OccursIn, Lookup;
  }

  lemma SubstringExactly(needle: string, text: string)
    ensures OccursIn(needle, text) <==> exists before, after :: text == before + needle + after
  {
    if OccursIn(needle, text) {
      var i: nat :| i <= |text| && OccursAt(needle, text, i);
      assert text == text[..i] + needle + text[i + |needle|..];
    }
    if exists before, after :: text == before + needle + after {
      var before, after :| text == before + needle + after;
      assert OccursAt(needle, text, |before|);
    }
  }

  // ----- the order of lists

  // Item by item equal up to i.
  ghost predicate AgreeUpTo(xs: seq<Value>, ys: seq<Value>, i: nat) {
    i <= |xs| && i <= |ys| && forall j :: 0 <= j < i ==> Same(xs[j], ys[j])
  }

  // Lists compare as words do: at the first place where they differ, or by length where one begins the other.
  lemma {:induction false} ListOrderExactly(xs: seq<Value>, ys: seq<Value>, i: nat)
    requires AgreeUpTo(xs, ys, i)
    ensures i == |xs| || i == |ys| ==> Less(VList(xs), VList(ys)) == Some(|xs| < |ys|)
    ensures i < |xs| && i < |ys| && !Same(xs[i], ys[i]) ==> Less(VList(xs), VList(ys)) == Less(xs[i], ys[i])
    decreases i
  {
    hide Same, Magnitude;
    assert Less(VList(xs), VList(ys)) == LessItems(xs, ys);
    if i > 0 {
      assert forall j :: 0 <= j < i - 1 ==> xs[1..][j] == xs[j + 1] && ys[1..][j] == ys[j + 1];
      ListOrderExactly(xs[1..], ys[1..], i - 1);
      assert Less(VList(xs[1..]), VList(ys[1..])) == LessItems(xs[1..], ys[1..]);
    }
  }

  // Strings compare at the first character in which they differ, or by length; numbers and booleans by value; and
  // nothing else compares but lists.
  lemma OrderExactly(a: Value, b: Value, i: nat)
    ensures a.VStr? && b.VStr? && i <= |a.s| && i <= |b.s| && a.s[..i] == b.s[..i] ==>
      && (i < |a.s| && i < |b.s| && a.s[i] != b.s[i] ==> Less(a, b) == Some(a.s[i] < b.s[i]))
      && (i == |a.s| || i == |b.s| ==> Less(a, b) == Some(|a.s| < |b.s|))
    ensures Magnitude(a).Some? && Magnitude(b).Some? ==> Less(a, b) == Some(Magnitude(a).value < Magnitude(b).value)
    ensures !(a.VStr? && b.VStr?) && !(a.VList? && b.VList?) && !(Magnitude(a).Some? && Magnitude(b).Some?) ==> Less(a, b) == None
  {
    hide LessItems, Sorting.StringLeq;
    if a.VStr? && b.VStr? && i <= |a.s| && i <= |b.s| && a.s[..i] == b.s[..i] {
      Sorting.StringLeqExactly(a.s, b.s, i);
      if i == |a.s| == |b.s| {
        assert a.s == a.s[..i] && b.s == b.s[..i];
      }
    }
  }
}
