/** What each transformation leaves at every path: removed, redacted, moved, or as it was. */
module ProjectionEffects {
  import opened Wrappers
  import opened StateTree
  import opened Projection
  import opened ProjectionRun

  // ----- one step, path by path

  // Omitting: nothing at or below the path, and every other path answers as before.
  lemma OmitReads<V>(n: Node<V>, path: Path, redacted: V, q: seq<string>)
    requires n.Dict?
    ensures var r := Get(Step(n, Omit(path), redacted), q);
      if path <= q then r == None else Similar(r, Get(n, q))
  {
    hide Get, Pop;
    if path <= q {
      GetPopBelow(n, path, q);
    } else if q < path {
      GetPopAbove(n, path, q);
    } else {
      GetPopApart(n, path, q);
    }
  }

  // Redacting: the mark in place of what was found, with nothing below it; where nothing was found, no change.
  lemma RedactReads<V>(n: Node<V>, path: Path, redacted: V, q: seq<string>)
    requires n.Dict?
    ensures Get(n, path).None? ==> Step(n, Redact(path), redacted) == n
    ensures var r := Get(Step(n, Redact(path), redacted), q);
      Get(n, path).Some? ==>
        if q == path then r == Some(Leaf(redacted)) else if path <= q then r == None else Similar(r, Get(n, q))
  {
    if Get(n, path).Some? {
      if path <= q {
        GetSetBelow(n, path, Leaf(redacted), q);
      } else if q < path {
        GetSetAbove(n, path, Leaf(redacted), q);
        Inside(n, q, path);
      } else {
        GetSetApart(n, path, Leaf(redacted), q);
      }
    }
  }

  // Renaming: what was found stands at the target, whole, and no longer at the path; a dict leads to the target.
  lemma RenameReads<V>(n: Node<V>, path: Path, target: Path, redacted: V, q: seq<string>)
    requires n.Dict?
    ensures Get(n, path).None? ==> Step(n, Rename(path, target), redacted) == n
    ensures var r := Get(Step(n, Rename(path, target), redacted), q);
      Get(n, path).Some? ==>
        if target <= q then r == Get(Get(n, path).value, q[|target|..])
        else if q < target then r.Some? && r.value.Dict?
        else if path <= q then r == None
        else Similar(r, Get(n, q))
  {
    if Get(n, path).Some? {
      hide Get, Set, Pop;
      var v := Get(n, path).value;
      var popped := Pop(n, path);
      if target <= q {
        GetSetBelow(popped, target, v, q);
      } else if q < target {
        GetSetAbove(popped, target, v, q);
      } else {
        GetSetApart(popped, target, v, q);
        OmitReads(n, path, redacted, q);
      }
    }
  }

  // ----- a whole run: removed or redacted

  // Does the step leave nothing there, put something there, or pass the path by?
  datatype Fate = Clears | Fills | Passes

  function FateOn<V>(n: Node<V>, t: Transformation, p: Path): Fate {
    match t
    case Omit(path) => if path <= p then Clears else Passes
    case Redact(path) => if Get(n, path).Some? && path <= p then (if path == p then Fills else Clears) else Passes
    case Rename(path, target) =>
      if Get(n, path).None? then Passes
      else if target <= p then (if Get(Get(n, path).value, p[|target|..]).None? then Clears else Fills)
      else if p < target then Fills
      else if path <= p then Clears
      else Passes
  }

  lemma FateExactly<V>(n: Node<V>, t: Transformation, p: Path, redacted: V)
    requires n.Dict?
    ensures var f := FateOn(n, t, p);
      Get(Step(n, t, redacted), p) == None <==> f == Clears || (f == Passes && Get(n, p) == None)
  {
    hide Get, Step;
    match t
    case Omit(path) => OmitReads(n, path, redacted, p);
    case Redact(path) => RedactReads(n, path, redacted, p);
    case Rename(path, target) => RenameReads(n, path, target, redacted, p);
  }

  ghost function FateAt<V>(n: Node<V>, ts: seq<Transformation>, j: nat, p: Path, redacted: V): Fate
    requires n.Dict? && j < |ts|
  {
    FateOn(Transform(n, ts[..j], redacted), ts[j], p)
  }

  ghost predicate PassedFrom<V>(n: Node<V>, ts: seq<Transformation>, k: nat, p: Path, redacted: V)
    requires n.Dict?
  {
    forall j :: k <= j < |ts| ==> FateAt(n, ts, j, p, redacted) == Passes
  }

  ghost predicate LastWordClears<V>(n: Node<V>, ts: seq<Transformation>, p: Path, redacted: V)
    requires n.Dict?
  {
    || (Get(n, p) == None && PassedFrom(n, ts, 0, p, redacted))
    || exists k :: 0 <= k < |ts| && FateAt(n, ts, k, p, redacted) == Clears && PassedFrom(n, ts, k + 1, p, redacted)
  }

  lemma OneMoreFate<V>(n: Node<V>, ts: seq<Transformation>, p: Path, redacted: V)
    requires n.Dict? && ts != []
    ensures var init, f := ts[..|ts| - 1], FateAt(n, ts, |ts| - 1, p, redacted);
      LastWordClears(n, ts, p, redacted) <==> f == Clears || (f == Passes && LastWordClears(n, init, p, redacted))
  {
    hide FateOn, Transform, Get;
    var init, last := ts[..|ts| - 1], |ts| - 1;
    forall j | 0 <= j < last
      ensures FateAt(n, init, j, p, redacted) == FateAt(n, ts, j, p, redacted)
    {
      assert init[..j] == ts[..j];
    }
    forall k | 0 <= k <= last
      ensures PassedFrom(n, ts, k, p, redacted)
          <==> PassedFrom(n, init, k, p, redacted) && FateAt(n, ts, last, p, redacted) == Passes
    {
    }
    assert PassedFrom(n, ts, last + 1, p, redacted);
    hide FateAt, PassedFrom;
  }

  // After all transformations a path is gone if and only if the last one that cleared or filled it cleared it.
  lemma {:induction false} GoneExactly<V>(n: Node<V>, ts: seq<Transformation>, p: Path, redacted: V)
    requires n.Dict?
    ensures Get(Transform(n, ts, redacted), p) == None <==> LastWordClears(n, ts, p, redacted)
    decreases |ts|
  {
    hide Get, Step, FateOn;
    if ts != [] {
      var init, last := ts[..|ts| - 1], |ts| - 1;
      GoneExactly(n, init, p, redacted);
      FateExactly(Transform(n, init, redacted), ts[last], p, redacted);
      OneMoreFate(n, ts, p, redacted);
    }
  }

  // The mark stands there if and only if the path is hidden and not gone.
  lemma MarkedExactly<V>(n: Node<V>, ts: seq<Transformation>, p: Path, redacted: V)
    requires n.Dict?
    ensures Get(Transform(n, ts, redacted), p) == Some(Leaf(redacted))
        <==> LastWordHides(n, ts, p, redacted) && !LastWordClears(n, ts, p, redacted)
  {
    hide LastWordHides, LastWordClears, Get, Transform;
    MaskExactly(n, ts, p, redacted);
    GoneExactly(n, ts, p, redacted);
  }

  // ----- what is shown at all

  // A visible path is active unless a deny label or an omitted path names it, or its root.
  lemma ActiveExactly(c: Compiled, v: Path)
    ensures Active(c, v)
        <==> forall l: Path :: l in c.denyLabels || l in c.omittedPaths ==> l != v && !(|l| == 1 && l[0] == v[0])
  {
    var root: Path := [v[0]];
    assert forall l: Path :: |l| == 1 && l[0] == v[0] ==> l == root;
  }

  // The errors, each in its own case, and the empty outcome of a refusal or of an empty allow-list.
  lemma OutcomesExactly<V(!new)>(state: Node<V>, c: Compiled, access: Access, redacted: V, r: Outcome<V>)
    requires IsProjection(state, c, access, redacted, r)
    ensures r == Err(UnsupportedSemantics) <==> c.unsupported
    ensures r == Err(AccessDenied) <==> !c.unsupported && access == NoActor
    ensures r == Err(PathMissing) <==>
      !c.unsupported && access != NoActor && access != Decided(false)
      && c.failOnMissing && exists v: Path :: v in c.visiblePaths && Active(c, v) && Get(state, v).None?
    ensures !c.unsupported && access == Decided(false) ==> r == Ok(Dict(map[]))
    ensures !c.unsupported && access != NoActor && c.visiblePaths == [] && !c.allowEmptyVisible ==> r == Ok(Dict(map[]))
  {
    hide Collect, Transform, Trimmed, Get, Active;
    if !c.unsupported && access != NoActor && access != Decided(false) {
      var base: Outcome<V> :| IsBase(state, c, base) && r == Finished(c, base, redacted);
      FailsOnMissing(state, c, c.visiblePaths);
      NothingToTransform(c.transformations, redacted);
      BaseIsDictOrFails(state, c, base);
    }
  }

  lemma BaseIsDictOrFails<V>(state: Node<V>, c: Compiled, base: Outcome<V>)
    requires IsBase(state, c, base)
    ensures base.Ok? ==> base.value.Dict?
    ensures base.Err? ==> base.error == PathMissing && c.visiblePaths != [] && base == Collect(state, c, c.visiblePaths)
  {
  }
}
