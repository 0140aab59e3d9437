/** Nested state documents, read and written by dotted path. */
module StateTree {
  import opened Wrappers

  // A state document; leaves are everything that is no dict.
  datatype Node<V> = Leaf(value: V) | Dict(entries: map<string, Node<V>>)

  // A dotted path, split; never empty.
  type Path = p: seq<string> | p != [] witness [""]

  // ----- reading

  // None stands for the missing marker.
  function Get<V>(n: Node<V>, p: seq<string>): Option<Node<V>>
    decreases |p|
  {
    if p == [] then Some(n)
    else if n.Leaf? || p[0] !in n.entries then None
    else Get(n.entries[p[0]], p[1..])
  }

  // ----- writing and removing

  function Child<V>(n: Node<V>, key: string): Node<V> {
    if n.Dict? && key in n.entries && n.entries[key].Dict? then n.entries[key] else Dict(map[])
  }

  // Creates the dicts on the way, replacing anything else that stands there.
  function Set<V>(n: Node<V>, p: Path, v: Node<V>): (r: Node<V>)
    requires n.Dict?
    ensures r.Dict?
    decreases |p|
  {
    if |p| == 1 then Dict(n.entries[p[0] := v])
    else Dict(n.entries[p[0] := Set(Child(n, p[0]), p[1..], v)])
  }

  function Pop<V>(n: Node<V>, p: Path): (r: Node<V>)
    ensures n.Dict? ==> r.Dict?
    decreases |p|
  {
    if n.Leaf? || p[0] !in n.entries then n
    else if |p| == 1 then Dict(n.entries - {p[0]})
    else Dict(n.entries[p[0] := Pop(n.entries[p[0]], p[1..])])
  }

  // Neither path runs through the other.
  predicate Apart(p: seq<string>, q: seq<string>) { !(p <= q) && !(q <= p) }

  // ----- the laws of reading after writing

  lemma {:induction false} GetSetBelow<V>(n: Node<V>, p: Path, v: Node<V>, q: seq<string>)
    requires n.Dict? && p <= q
    ensures Get(Set(n, p, v), q) == Get(v, q[|p|..])
    decreases |p|
  {
    if |p| == 1 {
    } else {
      GetSetBelow(Child(n, p[0]), p[1..], v, q[1..]);
      assert q[1..][|p| - 1..] == q[|p|..];
    }
  }

  lemma {:induction false} GetSetAbove<V>(n: Node<V>, p: Path, v: Node<V>, q: seq<string>)
    requires n.Dict? && q < p
    ensures Get(Set(n, p, v), q).Some? && Get(Set(n, p, v), q).value.Dict?
    decreases |p|
  {
    if q != [] {
      GetSetAbove(Child(n, p[0]), p[1..], v, q[1..]);
    }
  }

  // Elsewhere nothing changes, unless a leaf stood in the way.
  lemma {:induction false} GetSetApart<V>(n: Node<V>, p: Path, v: Node<V>, q: seq<string>)
    requires n.Dict? && Apart(p, q)
    ensures Get(Set(n, p, v), q) == Get(n, q)
    decreases |p|
  {
    if |p| > 1 && q != [] && p[0] == q[0] {
      GetSetApart(Child(n, p[0]), p[1..], v, q[1..]);
    } else if |p| == 1 && q != [] {
    }
  }

  lemma {:induction false} GetPopBelow<V>(n: Node<V>, p: Path, q: seq<string>)
    requires n.Dict? && p <= q
    ensures Get(Pop(n, p), q) == None
    decreases |p|
  {
    if |p| > 1 && p[0] in n.entries {
      if n.entries[p[0]].Dict? {
        GetPopBelow(n.entries[p[0]], p[1..], q[1..]);
      }
    }
  }

  lemma {:induction false} GetPopApart<V>(n: Node<V>, p: Path, q: seq<string>)
    requires n.Dict? && Apart(p, q)
    ensures Get(Pop(n, p), q) == Get(n, q)
    decreases |p|
  {
    if p[0] in n.entries && q != [] && p[0] == q[0] {
      if |p| > 1 && n.entries[p[0]].Dict? {
        GetPopApart(n.entries[p[0]], p[1..], q[1..]);
      }
    }
  }

  // Above the removed path a dict stays a dict.
  lemma {:induction false} GetPopAbove<V>(n: Node<V>, p: Path, q: seq<string>)
    requires n.Dict? && q < p
    ensures Get(Pop(n, p), q).Some? == Get(n, q).Some?
    ensures Get(n, q).Some? ==> Get(Pop(n, p), q).value.Dict? == Get(n, q).value.Dict?
    ensures Get(n, q).Some? && Get(n, q).value.Leaf? ==> Get(Pop(n, p), q) == Get(n, q)
    decreases |p|
  {
    if q != [] && p[0] in n.entries {
      if n.entries[p[0]].Dict? {
        GetPopAbove(n.entries[p[0]], p[1..], q[1..]);
      }
    }
  }

  lemma {:induction false} GetThrough<V>(n: Node<V>, p: seq<string>, q: seq<string>)
    requires p <= q && Get(n, p).Some?
    ensures Get(n, q) == Get(Get(n, p).value, q[|p|..])
    decreases |p|
  {
    if p != [] {
      GetThrough(n.entries[p[0]], p[1..], q[1..]);
      assert q[1..][|p| - 1..] == q[|p|..];
    } else {
      assert q[0..] == q;
    }
  }

  lemma {:induction false} NoneBelowNone<V>(n: Node<V>, p: seq<string>, q: seq<string>)
    requires p <= q && Get(n, p).None?
    ensures Get(n, q).None?
    decreases |p|
  {
    if p != [] && n.Dict? && p[0] in n.entries {
      NoneBelowNone(n.entries[p[0]], p[1..], q[1..]);
    }
  }

  // Writing back what is there changes nothing.
  lemma {:induction false} SetSame<V>(n: Node<V>, p: Path, v: Node<V>)
    requires n.Dict? && Get(n, p) == Some(v)
    ensures Set(n, p, v) == n
    decreases |p|
  {
    if |p| == 1 {
      assert Get(n, p) == Get(n.entries[p[0]], p[1..]);
      assert n.entries[p[0] := v] == n.entries;
    } else {
      assert n.entries[p[0]].Dict?;
      SetSame(n.entries[p[0]], p[1..], v);
      assert n.entries[p[0] := n.entries[p[0]]] == n.entries;
    }
  }

  // Above the written path, the subdocument is the old one with the rest of the path written.
  lemma {:induction false} GetSetThrough<V>(n: Node<V>, p: Path, v: Node<V>, q: seq<string>)
    requires n.Dict? && q < p && Get(n, q).Some? && Get(n, q).value.Dict?
    ensures Get(Set(n, p, v), q) == Some(Set(Get(n, q).value, p[|q|..], v))
    decreases |q|
  {
    if q == [] {
      assert p[0..] == p;
    } else {
      GetSetThrough(n.entries[q[0]], p[1..], v, q[1..]);
      assert p[1..][|q| - 1..] == p[|q|..];
    }
  }

  method GetPath<V>(data: Node<V>, p: seq<string>) returns (r: Option<Node<V>>)
    ensures r == Get(data, p)
  {
    var cur := data;
    for i := 0 to |p|
      invariant Get(data, p) == Get(cur, p[i..])
    {
      if cur.Leaf? || p[i] !in cur.entries {
        return None;
      }
      assert p[i..][1..] == p[i + 1..];
      cur := cur.entries[p[i]];
    }
    r := Some(cur);
  }

  // ----- comparing documents

  // Both missing, both dicts, or the same leaf.
  predicate Similar<V(==)>(x: Option<Node<V>>, y: Option<Node<V>>) {
    match (x, y)
    case (None, None) => true
    case (Some(Dict(_)), Some(Dict(_))) => true
    case (Some(Leaf(a)), Some(Leaf(b))) => a == b
    case _ => false
  }

  // Documents that answer every path alike are the same document.
  lemma {:induction false} SameEverywhere<V>(a: Node<V>, b: Node<V>)
    requires forall q: seq<string> :: Similar(Get(a, q), Get(b, q))
    ensures a == b
    decreases a
  {
    assert Similar(Get(a, []), Get(b, []));
    if a.Dict? {
      forall k: string
        ensures k in a.entries <==> k in b.entries
        ensures k in a.entries ==> a.entries[k] == b.entries[k]
      {
        assert [k][1..] == [];
        assert Get(a, [k]).Some? <==> k in a.entries;
        assert Get(b, [k]).Some? <==> k in b.entries;
        assert Similar(Get(a, [k]), Get(b, [k]));
        if k in a.entries && k in b.entries {
          forall q: seq<string>
            ensures Similar(Get(a.entries[k], q), Get(b.entries[k], q))
          {
            assert ([k] + q)[1..] == q;
            assert Similar(Get(a, [k] + q), Get(b, [k] + q));
          }
          SameEverywhere(a.entries[k], b.entries[k]);
        }
      }
      assert a.entries == b.entries;
    }
  }
}
