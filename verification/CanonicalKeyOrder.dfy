/** RFC 8785 section 3.2.3 sorts keys by UTF-16 code units; the encoder sorts by code point. Where they part. */
module CanonicalKeyOrder {
  import opened Wrappers
  import opened Sorting
  import opened CanonicalJson

  function Units(ch: char): (u: seq<nat>)
    ensures 1 <= |u| <= 2
  {
    var code := ch as int;
    if code < 0x10000 then [code]
    else [0xD800 + (code - 0x10000) / 0x400, 0xDC00 + (code - 0x10000) % 0x400]
  }

  function Utf16(s: string): seq<nat> {
    if s == [] then [] else Units(s[0]) + Utf16(s[1..])
  }

  predicate UnitsLeq(a: seq<nat>, b: seq<nat>) {
    if a == [] then true
    else if b == [] then false
    else a[0] < b[0] || (a[0] == b[0] && UnitsLeq(a[1..], b[1..]))
  }

  predicate Parted(high: char, bmp: char) {
    high as int >= 0x10000 && 0xE000 <= bmp as int < 0x10000
  }

  // The first characters that differ are one above the BMP and one in U+E000..U+FFFF.
  predicate Astride(a: string, b: string) {
    if a == [] || b == [] then false
    else if a[0] == b[0] then Astride(a[1..], b[1..])
    else Parted(a[0], b[0]) || Parted(b[0], a[0])
  }

  lemma {:induction false} CommonPrefixCancels(p: seq<nat>, a: seq<nat>, b: seq<nat>)
    ensures UnitsLeq(p + a, p + b) == UnitsLeq(a, b)
  {
    if p == [] {
      assert p + a == a && p + b == b;
    } else {
      assert (p + a)[1..] == p[1..] + a && (p + b)[1..] == p[1..] + b;
      CommonPrefixCancels(p[1..], a, b);
    }
  }

  // Different characters, whatever follows: the code units order them as the code points do,
  // unless a surrogate pair meets a unit above the surrogates.
  lemma UnitsOrder(x: char, y: char, a: seq<nat>, b: seq<nat>)
    requires x != y
    ensures (UnitsLeq(Units(x) + a, Units(y) + b) <==> x < y) <==> !(Parted(x, y) || Parted(y, x))
  {
    var u, v := Units(x) + a, Units(y) + b;
    assert u[0] == Units(x)[0] && v[0] == Units(y)[0];
    if x as int >= 0x10000 && y as int >= 0x10000 {
      assert u[1] == Units(x)[1] && v[1] == Units(y)[1];
      var i, j := x as int - 0x10000, y as int - 0x10000;
      assert i == i / 0x400 * 0x400 + i % 0x400 && j == j / 0x400 * 0x400 + j % 0x400;
    }
  }

  // The encoder's key order is the standard's on exactly the pairs that are not astride.
  lemma {:induction false} OrdersAgree(a: string, b: string)
    ensures (StringLeq(a, b) <==> UnitsLeq(Utf16(a), Utf16(b))) <==> !Astride(a, b)
  {
    if a != [] && b != [] {
      if a[0] == b[0] {
        CommonPrefixCancels(Units(a[0]), Utf16(a[1..]), Utf16(b[1..]));
        OrdersAgree(a[1..], b[1..]);
      } else {
        UnitsOrder(a[0], b[0], Utf16(a[1..]), Utf16(b[1..]));
      }
    }
  }

  // A dict on which the encoder departs from the standard.
  lemma KeyOrderDeparts()
    ensures var entries := [(StrKey("\U{10000}"), PyInt(1)), (StrKey("\U{FF5E}"), PyInt(2))];
      && Items(entries).Some?
      && StringLeq("\U{FF5E}", "\U{10000}") && !UnitsLeq(Utf16("\U{FF5E}"), Utf16("\U{10000}"))
      && SortedItems(entries) == Some([("\U{FF5E}", PyInt(2)), ("\U{10000}", PyInt(1))])
  {
    var entries := [(StrKey("\U{10000}"), PyInt(1)), (StrKey("\U{FF5E}"), PyInt(2))];
    var first, second := ("\U{10000}", PyInt(1)), ("\U{FF5E}", PyInt(2));
    assert entries[1..] == [(StrKey("\U{FF5E}"), PyInt(2))];
    assert entries[1..][1..] == [];
    assert Items(entries[1..]) == Some([second] + Items(entries[1..][1..]).value);
    assert Items(entries) == Some([first] + Items(entries[1..]).value);
    assert Items(entries).value == [first, second];
    assert [first, second][1..] == [second];
    assert Sort(ByKey<PyValue>(), [second]) == [second];
    assert !KeyLeq(first, second);
    assert Insert(ByKey<PyValue>(), first, [second]) == [second] + Insert(ByKey<PyValue>(), first, [second][1..]);
    assert Insert(ByKey<PyValue>(), first, []) == [first];
    assert Sort(ByKey<PyValue>(), [first, second]) == [second, first];
  }

  // A dict's members come out in the standard's order exactly when no two of its keys are astride.
  lemma MembersInStandardOrder(entries: seq<(PyKey, PyValue)>)
    requires SortedItems(entries).Some?
    ensures (forall i, j :: 0 <= i < j < |SortedItems(entries).value| ==>
        UnitsLeq(Utf16(SortedItems(entries).value[i].0), Utf16(SortedItems(entries).value[j].0)))
      <==> forall i, j :: 0 <= i < j < |SortedItems(entries).value| ==>
        !Astride(SortedItems(entries).value[i].0, SortedItems(entries).value[j].0)
  {
    var s := SortedItems(entries).value;
    ByKeyIsOrder<PyValue>();
    SortSorts(ByKey<PyValue>(), Items(entries).value);
    forall i, j | 0 <= i < j < |s|
      ensures UnitsLeq(Utf16(s[i].0), Utf16(s[j].0)) <==> !Astride(s[i].0, s[j].0)
    {
      assert ByKey<PyValue>()(s[i], s[j]);
      OrdersAgree(s[i].0, s[j].0);
    }
  }

  lemma ByKeyIsOrder<T(!new)>()
    ensures Total(ByKey<T>()) && Transitive(ByKey<T>())
  {
    forall a: (string, T), b: (string, T)
      ensures ByKey<T>()(a, b) || ByKey<T>()(b, a)
    {
      StringLeqTotal(a.0, b.0);
    }
    forall a: (string, T), b: (string, T), c: (string, T) | ByKey<T>()(a, b) && ByKey<T>()(b, c)
      ensures ByKey<T>()(a, c)
    {
      StringLeqTransitive(a.0, b.0, c.0);
    }
  }
}
