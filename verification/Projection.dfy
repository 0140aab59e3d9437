/** Observation projections: the documents an allow-list of visible paths makes of a state. */
module Projection {
  import opened StateTree
  import opened Wrappers

  // ----- compiled projections

  datatype Compiled = Compiled(
    visiblePaths: seq<Path>,
    omittedPaths: seq<Path>,
    denyLabels: set<Path>,
    failOnMissing: bool,
    allowEmptyVisible: bool,
    transformations: seq<Transformation>,
    unsupported: bool)

  datatype Transformation = Omit(path: Path) | Redact(path: Path) | Rename(path: Path, target: Path)

  // The access decision, where the projection declares a control.
  datatype Access = NoControl | NoActor | Decided(allowed: bool)

  datatype ObservationError = UnsupportedSemantics | AccessDenied | PathMissing

  type Outcome<V> = Result<Node<V>, ObservationError>

  predicate Active(c: Compiled, v: Path) {
    [v[0]] !in c.denyLabels && v !in c.denyLabels && v !in c.omittedPaths && [v[0]] !in c.omittedPaths
  }

  // The allow-list result after some visible paths.
  function Collect<V>(state: Node<V>, c: Compiled, vs: seq<Path>): (r: Outcome<V>)
    ensures r.Ok? ==> r.value.Dict?
    ensures r.Err? ==> r.error == PathMissing
  {
    if vs == [] then Ok(Dict(map[]))
    else
      var sofar, v := Collect(state, c, vs[..|vs| - 1]), vs[|vs| - 1];
      if sofar.Err? || !Active(c, v) then sofar
      else if Get(state, v).None? then if c.failOnMissing then Err(PathMissing) else sofar
      else Ok(Set(sofar.value, v, Get(state, v).value))
  }

  // v is a path the projection may show, and the state has it.
  predicate Shown<V>(state: Node<V>, c: Compiled, vs: seq<Path>, v: Path) {
    v in vs && Active(c, v) && Get(state, v).Some?
  }

  ghost predicate Covered<V>(state: Node<V>, c: Compiled, vs: seq<Path>, q: seq<string>) {
    exists v: Path :: Shown(state, c, vs, v) && v <= q
  }

  ghost predicate Leads<V>(state: Node<V>, c: Compiled, vs: seq<Path>, q: seq<string>) {
    exists v: Path :: Shown(state, c, vs, v) && q < v
  }

  // What the allow-list result holds at a path: the state's own subdocument under a shown path,
  // a dict on the way to one, and nothing anywhere else.
  ghost predicate HoldsExactly<V>(state: Node<V>, c: Compiled, vs: seq<Path>, r: Node<V>, q: seq<string>) {
    if Covered(state, c, vs, q) then Get(r, q) == Get(state, q)
    else if q == [] || Leads(state, c, vs, q) then Get(r, q).Some? && Get(r, q).value.Dict?
    else Get(r, q) == None
  }

  lemma {:induction false} CollectExactly<V>(state: Node<V>, c: Compiled, vs: seq<Path>, q: seq<string>)
    requires state.Dict? && Collect(state, c, vs).Ok?
    ensures HoldsExactly(state, c, vs, Collect(state, c, vs).value, q)
    decreases |vs|
  {
    if vs != [] {
      var init, v := vs[..|vs| - 1], vs[|vs| - 1];
      assert forall u :: u in vs <==> u in init || u == v;
      CollectExactly(state, c, init, q);
      if Active(c, v) && Get(state, v).Some? {
        CollectStep(state, c, vs, Collect(state, c, init).value, v, q);
      } else {
        NotShown(state, c, vs, v, q);
      }
    }
  }

  lemma NotShown<V>(state: Node<V>, c: Compiled, vs: seq<Path>, v: Path, q: seq<string>)
    requires vs != [] && v == vs[|vs| - 1] && (!Active(c, v) || Get(state, v).None?)
    ensures Covered(state, c, vs, q) == Covered(state, c, vs[..|vs| - 1], q)
    ensures Leads(state, c, vs, q) == Leads(state, c, vs[..|vs| - 1], q)
  {
    var init := vs[..|vs| - 1];
    assert forall u: Path :: Shown(state, c, vs, u) <==> Shown(state, c, init, u);
    hide Shown;
  }

  lemma NowShown<V>(state: Node<V>, c: Compiled, vs: seq<Path>, v: Path, q: seq<string>)
    requires vs != [] && v == vs[|vs| - 1] && Active(c, v) && Get(state, v).Some?
    ensures Covered(state, c, vs, q) <==> Covered(state, c, vs[..|vs| - 1], q) || v <= q
    ensures Leads(state, c, vs, q) <==> Leads(state, c, vs[..|vs| - 1], q) || q < v
  {
    var init := vs[..|vs| - 1];
    assert forall u: Path :: Shown(state, c, vs, u) <==> Shown(state, c, init, u) || u == v;
    assert Shown(state, c, vs, v);
    hide Shown;
  }

  lemma CollectStep<V>(state: Node<V>, c: Compiled, vs: seq<Path>, r: Node<V>, v: Path, q: seq<string>)
    requires state.Dict? && r.Dict? && vs != [] && v == vs[|vs| - 1] && Active(c, v) && Get(state, v).Some?
    requires HoldsExactly(state, c, vs[..|vs| - 1], r, q)
    ensures HoldsExactly(state, c, vs, Set(r, v, Get(state, v).value), q)
  {
    var value := Get(state, v).value;
    NowShown(state, c, vs, v, q);
    hide Covered, Leads, Get, Set;
    if v <= q {
      GetSetBelow(r, v, value, q);
      GetThrough(state, v, q);
    } else if q < v {
      if Covered(state, c, vs[..|vs| - 1], q) {
        // The subdocument at q is the state's already; writing the state's value into it is idle.
        Inside(state, q, v);
        GetSetThrough(r, v, value, q);
        SetSame(Get(state, q).value, v[|q|..], value);
      } else {
        GetSetAbove(r, v, value, q);
      }
    } else {
      GetSetApart(r, v, value, q);
    }
  }

  lemma Inside<V>(n: Node<V>, q: seq<string>, v: Path)
    requires q < v && Get(n, v).Some?
    ensures Get(n, q).Some? && Get(n, q).value.Dict? && Get(Get(n, q).value, v[|q|..]) == Get(n, v)
  {
    if Get(n, q).None? {
      NoneBelowNone(n, q, v);
    }
    GetThrough(n, q, v);
  }

  // Confinement: a leaf of the result is the state's own leaf, under a visible path neither denied nor omitted.
  lemma LeavesAreConfined<V>(state: Node<V>, c: Compiled, vs: seq<Path>, q: seq<string>)
    requires state.Dict? && Collect(state, c, vs).Ok?
    requires Get(Collect(state, c, vs).value, q).Some? && Get(Collect(state, c, vs).value, q).value.Leaf?
    ensures Get(state, q) == Get(Collect(state, c, vs).value, q)
    ensures exists v: Path :: v in vs && Active(c, v) && v <= q
  {
    CollectExactly(state, c, vs, q);
    assert Covered(state, c, vs, q);
    var v: Path :| Shown(state, c, vs, v) && v <= q;
    hide Collect;
  }

  // Non-interference: states that agree on the active visible paths give one outcome, error or not.
  lemma {:induction false} NonInterference<V>(s: Node<V>, t: Node<V>, c: Compiled, vs: seq<Path>)
    requires forall v: Path :: v in vs && Active(c, v) ==> Get(s, v) == Get(t, v)
    ensures Collect(s, c, vs) == Collect(t, c, vs)
    decreases |vs|
  {
    if vs != [] {
      assert vs[|vs| - 1] in vs;
      NonInterference(s, t, c, vs[..|vs| - 1]);
    }
  }

  // The projection fails exactly when it must show a path the state lacks.
  lemma {:induction false} FailsOnMissing<V>(state: Node<V>, c: Compiled, vs: seq<Path>)
    ensures Collect(state, c, vs).Err?
        <==> c.failOnMissing && exists v: Path :: v in vs && Active(c, v) && Get(state, v).None?
    decreases |vs|
  {
    if vs != [] {
      FailsOnMissing(state, c, vs[..|vs| - 1]);
      assert forall v :: v in vs <==> v in vs[..|vs| - 1] || v == vs[|vs| - 1];
    }
  }

  // Any path, an omitted one too, resolves in the result if and only if the state has it under a shown path,
  // or it leads to one.
  lemma ResolvesExactly<V>(state: Node<V>, c: Compiled, vs: seq<Path>, q: Path)
    requires state.Dict? && Collect(state, c, vs).Ok?
    ensures Get(Collect(state, c, vs).value, q).Some?
        <==> exists v: Path :: Shown(state, c, vs, v) && ((v <= q && Get(state, q).Some?) || q < v)
  {
    CollectExactly(state, c, vs, q);
    hide Collect, Shown;
    if Covered(state, c, vs, q) {
      var v: Path :| Shown(state, c, vs, v) && v <= q;
      if exists u: Path :: Shown(state, c, vs, u) && q < u {
        var u: Path :| Shown(state, c, vs, u) && q < u;
        Inside(state, q, u);
      }
    }
  }

  // A deny label or omitted path that names a root hides everything below the root.
  lemma DeniedRootVanishes<V>(state: Node<V>, c: Compiled, vs: seq<Path>, root: string, q: Path)
    requires state.Dict? && Collect(state, c, vs).Ok?
    requires ([root] in c.denyLabels || [root] in c.omittedPaths) && q[0] == root
    ensures Get(Collect(state, c, vs).value, q) == None
  {
    hide Collect, Get;
    forall v: Path | Shown(state, c, vs, v)
      ensures !(v <= q) && !(q < v)
    {
      assert [v[0]] != [root];
    }
    CollectExactly(state, c, vs, q);
  }

  // Omitting a path under a visible one does not hide it: only whole visible paths and roots are matched.
  lemma OmittedChildIsShown<V>(secret: V)
    ensures var state := Dict(map["a" := Dict(map["b" := Leaf(secret)])]);
      var c := Compiled([["a"]], [["a", "b"]], {}, true, false, [], false);
      Collect(state, c, c.visiblePaths).Ok?
      && Get(Collect(state, c, c.visiblePaths).value, ["a", "b"]) == Some(Leaf(secret))
  {
    var state := Dict(map["a" := Dict(map["b" := Leaf(secret)])]);
    var a: Path := ["a"];
    var c := Compiled([a], [["a", "b"]], {}, true, false, [], false);
    assert ["a"] != ["a", "b"];
    assert Active(c, a);
    assert Get(state, a) == Get(state.entries["a"], a[1..]);
    assert [a][..0] == [];
    assert Shown(state, c, [a], a) && a <= ["a", "b"];
    CollectExactly(state, c, [a], ["a", "b"]);
    assert ["a", "b"][1..] == ["b"] && ["b"][1..] == [];
  }
}
