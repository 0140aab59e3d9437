/** Cutting a sequence into nearly equal parts, and what is left when a part is taken out. */
module Granules {
  import opened Wrappers

  function Min(a: int, b: int): int { if a <= b then a else b }

  function Max(a: int, b: int): int { if a >= b then a else b }

  // ----- subsequences

  // a arises from b by deleting elements.
  predicate IsSubseq<T(==)>(a: seq<T>, b: seq<T>)
    decreases |b|
  {
    if a == [] then true
    else if b == [] then false
    else (a[0] == b[0] && IsSubseq(a[1..], b[1..])) || IsSubseq(a, b[1..])
  }

  lemma {:induction false} SubseqReflexive<T>(a: seq<T>)
    ensures IsSubseq(a, a)
  {
    if a != [] {
      SubseqReflexive(a[1..]);
    }
  }

  lemma {:induction false} SubseqTransitive<T>(a: seq<T>, b: seq<T>, c: seq<T>)
    requires IsSubseq(a, b) && IsSubseq(b, c)
    ensures IsSubseq(a, c)
    decreases |b| + |c|
  {
    if a != [] {
      if IsSubseq(b, c[1..]) {
        SubseqTransitive(a, b, c[1..]);
      } else if IsSubseq(a, b[1..]) {
        SubseqTransitive(a, b[1..], c[1..]);
      } else {
        SubseqTransitive(a[1..], b[1..], c[1..]);
      }
    }
  }

  // Cutting out a middle piece, or keeping only it, leaves a subsequence.
  lemma {:induction false} PiecesAreSubseqs<T>(a: seq<T>, p: seq<T>, b: seq<T>)
    ensures IsSubseq(a + b, a + p + b)
    ensures IsSubseq(p, a + p + b)
    decreases |a| + |p|
  {
    var whole := a + p + b;
    if a != [] {
      assert (a + b)[1..] == a[1..] + b;
      assert whole[1..] == a[1..] + p + b;
      PiecesAreSubseqs(a[1..], p, b);
    } else if p != [] {
      assert whole[1..] == [] + p[1..] + b;
      PiecesAreSubseqs([], p[1..], b);
      assert [] + b == b;
    } else {
      assert whole == b && a + b == b;
      SubseqReflexive(b);
    }
  }

  // ----- partition and complement

  function Flatten<T>(parts: seq<seq<T>>): seq<T> {
    if parts == [] then [] else Flatten(parts[..|parts| - 1]) + parts[|parts| - 1]
  }

  ghost predicate Parts<T>(s: seq<T>, parts: seq<seq<T>>) {
    Flatten(parts) == s && |parts| >= 2 && forall j :: 0 <= j < |parts| ==> parts[j] != []
  }

  predicate OccursAt<T(==)>(s: seq<T>, piece: seq<T>, i: nat) {
    i + |piece| <= |s| && s[i..i + |piece|] == piece
  }

  lemma CutOutIsSubseq<T>(s: seq<T>, piece: seq<T>, i: nat)
    requires OccursAt(s, piece, i)
    ensures IsSubseq(s[..i] + s[i + |piece|..], s) && IsSubseq(piece, s)
  {
    assert s == s[..i] + piece + s[i + |piece|..];
    PiecesAreSubseqs(s[..i], piece, s[i + |piece|..]);
  }

  // Each part occurs in the whole, and the other parts account for at least one element each.
  lemma {:induction false} PartOccurs<T>(parts: seq<seq<T>>, i: nat) returns (k: nat)
    requires i < |parts| && forall j :: 0 <= j < |parts| ==> parts[j] != []
    ensures OccursAt(Flatten(parts), parts[i], k)
    ensures |Flatten(parts)| - |parts[i]| >= |parts| - 1
  {
    var last := |parts| - 1;
    var init := parts[..last];
    FlattenLength(init);
    if i < last {
      k := PartOccurs(init, i);
      assert Flatten(parts)[k..k + |parts[i]|] == Flatten(init)[k..k + |parts[i]|];
    } else {
      k := |Flatten(init)|;
    }
  }

  lemma {:induction false} FlattenLength<T>(parts: seq<seq<T>>)
    requires forall j :: 0 <= j < |parts| ==> parts[j] != []
    ensures |Flatten(parts)| >= |parts|
  {
    if parts != [] {
      FlattenLength(parts[..|parts| - 1]);
    }
  }

  // Where the i-th of n nearly equal pieces begins.
  function Cut(length: nat, n: nat, i: nat): nat
    requires n > 0
  {
    i * length / n
  }

  lemma CutsGrow(length: nat, n: nat, i: nat)
    requires 0 < n <= length && i < n
    ensures Cut(length, n, i) < Cut(length, n, i + 1) <= length
  {
    NextMultiple(length, n, i);
    DivisionGrows(i * length, length, n);
    DivisionMonotone((i + 1) * length, n * length, n);
    DivisionUnique(n * length, n, length);
  }

  lemma Multiples(a: nat, b: nat, length: nat)
    ensures (a + b) * length == a * length + b * length && b * length >= 0
  {
  }

  lemma NextMultiple(length: nat, n: nat, i: nat)
    requires i < n
    ensures (i + 1) * length == i * length + length
    ensures (i + 1) * length <= n * length
  {
    Multiples(i, 1, length);
    Multiples(i + 1, n - (i + 1), length);
  }

  lemma DivisionGrows(x: int, d: int, n: int)
    requires d >= n > 0
    ensures x / n < (x + d) / n
  {
    DivisionMonotone(x + n, x + d, n);
    DivisionUnique(x + n, n, x / n + 1);
  }

  lemma DivisionUnique(x: int, n: int, q: int)
    requires n > 0 && n * q <= x < n * q + n
    ensures x / n == q
  {
    var q', r := x / n, x % n;
    assert x == n * q' + r;
    assert n * (q' - q) == x - r - n * q;
    SmallMultiple(n, q' - q);
  }

  lemma SmallMultiple(n: int, k: int)
    requires n > 0 && -n < n * k < n
    ensures k == 0
  {
    MultipleIsFar(n, k);
    MultipleIsFar(n, -k);
    assert n * -k == -(n * k);
  }

  lemma MultipleIsFar(n: int, k: int)
    requires n > 0
    ensures k >= 1 ==> n * k >= n
  {
    if k >= 1 {
      assert n * k == n + n * (k - 1);
    }
  }

  lemma DivisionMonotone(x: int, y: int, n: int)
    requires n > 0 && x <= y
    ensures x / n <= y / n
  {
    var q, r := x / n, y / n;
    assert x == n * q + x % n && y == n * r + y % n;
    assert n * (q - r) == n * q - n * r;
    MultipleIsFar(n, q - r);
  }

  lemma CutsSpan(length: nat, n: nat)
    requires n > 0
    ensures Cut(length, n, 0) == 0 && Cut(length, n, n) == length
  {
    DivisionUnique(0, n, 0);
    DivisionUnique(n * length, n, length);
  }

  function PieceAt<T>(s: seq<T>, m: nat, j: nat): seq<T>
    requires j < m <= |s|
  {
    CutsGrow(|s|, m, j);
    s[Cut(|s|, m, j)..Cut(|s|, m, j + 1)]
  }

  // The parts, none longer than another by more than one element.
  function Cuts<T>(s: seq<T>, n: int): seq<seq<T>> {
    if n <= 1 then [s]
    else
      var m := Min(n, |s|);
      seq(m, j requires 0 <= j < m => PieceAt(s, m, j))
  }

  lemma PiecesAreEven<T>(s: seq<T>, m: nat, j: nat)
    requires j < m <= |s|
    ensures |s| / m <= |PieceAt(s, m, j)| <= |s| / m + 1
  {
    CutsGrow(|s|, m, j);
    assert (j + 1) * |s| == j * |s| + |s|;
    QuotientStep(j * |s|, |s|, m);
  }

  lemma QuotientStep(x: int, d: int, m: int)
    requires m > 0
    ensures x / m + d / m <= (x + d) / m <= x / m + d / m + 1
  {
    Divided(x, m);
    Divided(d, m);
    RemaindersAdd(x, d, m, x / m, x % m, d / m, d % m);
  }

  lemma Divided(x: int, m: int)
    requires m > 0
    ensures x == m * (x / m) + x % m && 0 <= x % m < m
  {
  }

  lemma RemaindersAdd(x: int, d: int, m: int, a: int, r: int, b: int, t: int)
    requires 0 <= r < m && 0 <= t < m && x == m * a + r && d == m * b + t
    ensures a + b <= (x + d) / m <= a + b + 1
  {
    Distributes(m, a, b);
    Distributes(m, a + b, 1);
    DivisionUnique(x + d, m, if r + t < m then a + b else a + b + 1);
  }

  lemma Distributes(m: int, a: int, b: int)
    ensures m * (a + b) == m * a + m * b
  {
  }

  // The parts in order make up the sequence; with n >= 2 there are min(n, length) of them, none empty.
  method Partition<T>(s: seq<T>, n: int) returns (parts: seq<seq<T>>)
    requires s != [] || n <= 1
    ensures Flatten(parts) == s
    ensures n <= 1 ==> parts == [s]
    ensures n >= 2 ==> |parts| == Min(n, |s|) && forall j :: 0 <= j < |parts| ==> parts[j] != []
    ensures n >= 2 && |s| >= 2 ==> Parts(s, parts)
    ensures parts == Cuts(s, n)
  {
    if n <= 1 {
      assert [s][..0] == [];
      return [s];
    }
    var m := Min(n, |s|);
    parts := [];
    CutsSpan(|s|, m);
    for i := 0 to m
      invariant |parts| == i && Cut(|s|, m, i) <= |s| && Flatten(parts) == s[..Cut(|s|, m, i)]
      invariant forall j :: 0 <= j < i ==> parts[j] != [] && parts[j] == PieceAt(s, m, j)
    {
      CutsGrow(|s|, m, i);
      var start := Cut(|s|, m, i);
      var end := Cut(|s|, m, i + 1);
      var part := s[start..end];
      assert (parts + [part])[..i] == parts;
      assert s[..end] == s[..start] + part;
      // The source keeps the non-empty parts in a second pass; here none is empty.
      if part != [] {
        parts := parts + [part];
      }
    }
    assert s[..|s|] == s;
  }

  function Without<T(==)>(s: seq<T>, drop: seq<T>): seq<T> {
    if s == [] then []
    else if s[0] in drop then Without(s[1..], drop)
    else [s[0]] + Without(s[1..], drop)
  }

  // Where the piece first occurs from i on.
  function Occurrence<T(==)>(s: seq<T>, piece: seq<T>, i: nat): (r: Option<nat>)
    ensures r.Some? ==> OccursAt(s, piece, r.value) && forall j: nat :: i <= j < r.value ==> !OccursAt(s, piece, j)
    ensures r.None? ==> forall j: nat :: i <= j ==> !OccursAt(s, piece, j)
    decreases |s| - i
  {
    if i + |piece| > |s| then None
    else if OccursAt(s, piece, i) then Some(i)
    else if i == |s| then None
    else Occurrence(s, piece, i + 1)
  }

  // The sequence without the first occurrence of the piece; without any element of it where there is none.
  function Remainder<T(==)>(s: seq<T>, piece: seq<T>): seq<T> {
    var k := Occurrence(s, piece, 0);
    if k.Some? then s[..k.value] + s[k.value + |piece|..]
    else Without(s, piece)
  }

  // So it cuts out the first occurrence, where there is one,
  lemma RemainderExactly<T>(s: seq<T>, piece: seq<T>, i: nat)
    requires OccursAt(s, piece, i)
    ensures |Remainder(s, piece)| == |s| - |piece| && IsSubseq(Remainder(s, piece), s)
    ensures (forall j: nat :: j < i ==> !OccursAt(s, piece, j)) ==> Remainder(s, piece) == s[..i] + s[i + |piece|..]
  {
    hide IsSubseq, Without;
    var first := Occurrence(s, piece, 0).value;
    CutOutIsSubseq(s, piece, first);
  }

  // and every element of the piece, where there is none.
  lemma RemainderElsewhere<T>(s: seq<T>, piece: seq<T>, x: T)
    requires forall i: nat :: !OccursAt(s, piece, i)
    ensures x in Remainder(s, piece) <==> x in s && x !in piece
  {
    hide OccursAt;
    WithoutMembers(s, piece, x);
  }

  lemma {:induction false} WithoutMembers<T>(s: seq<T>, drop: seq<T>, x: T)
    ensures x in Without(s, drop) <==> x in s && x !in drop
  {
    if s != [] {
      WithoutMembers(s[1..], drop, x);
    }
  }

  // The loop over the positions finds it.
  method ComplementOf<T(==)>(s: seq<T>, subset: seq<T>) returns (r: seq<T>)
    ensures r == Remainder(s, subset)
  {
    if subset == [] {
      assert OccursAt(s, subset, 0) && s[..0] + s[0..] == s;
      return s;
    }
    var i := 0;
    while i < |s| - |subset| + 1
      invariant forall j: nat :: j < i ==> !OccursAt(s, subset, j)
    {
      if s[i..i + |subset|] == subset {
        assert OccursAt(s, subset, i);
        return s[..i] + s[i + |subset|..];
      }
      i := i + 1;
    }
    r := Without(s, subset);
  }
}
