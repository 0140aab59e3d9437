/** The whole projection: access control, allow-list or omit-only mode, then the transformations. */
module ProjectionRun {
  import opened Projection
  import opened StateTree
  import opened Wrappers

  // ----- omit-only mode

  ghost predicate Under(hidden: set<Path>, q: seq<string>) { exists p: Path :: p in hidden && p <= q }

  ghost predicate Above(hidden: set<Path>, q: seq<string>) { exists p: Path :: p in hidden && q < p }

  // No hidden path resolves, and everything else answers as in the state.
  ghost predicate TrimmedAt<V>(state: Node<V>, hidden: set<Path>, r: Node<V>, q: seq<string>) {
    if Under(hidden, q) then Get(r, q) == None else Similar(Get(r, q), Get(state, q))
  }

  ghost predicate Trimmed<V>(state: Node<V>, hidden: set<Path>, r: Node<V>) {
    r.Dict? && forall q: seq<string> :: TrimmedAt(state, hidden, r, q)
  }

  lemma TrimStart<V>(state: Node<V>)
    requires state.Dict?
    ensures Trimmed(state, {}, state)
  {
    assert forall q: seq<string> :: Similar(Get(state, q), Get(state, q));
    hide Get;
  }

  lemma UnderOneMore(hidden: set<Path>, p: Path, q: seq<string>)
    ensures Under(hidden + {p}, q) <==> Under(hidden, q) || p <= q
  {
    assert p in hidden + {p};
  }

  lemma TrimStepAt<V>(state: Node<V>, hidden: set<Path>, r: Node<V>, p: Path, q: seq<string>)
    requires r.Dict? && TrimmedAt(state, hidden, r, q)
    ensures TrimmedAt(state, hidden + {p}, Pop(r, p), q)
  {
    hide Under, Get, Pop;
    UnderOneMore(hidden, p, q);
    if p <= q {
      GetPopBelow(r, p, q);
    } else if q < p {
      GetPopAbove(r, p, q);
    } else {
      GetPopApart(r, p, q);
    }
  }

  lemma TrimStep<V>(state: Node<V>, hidden: set<Path>, r: Node<V>, p: Path)
    requires Trimmed(state, hidden, r)
    ensures Trimmed(state, hidden + {p}, Pop(r, p))
  {
    hide TrimmedAt, Get;
    forall q: seq<string>
      ensures TrimmedAt(state, hidden + {p}, Pop(r, p), q)
    {
      assert TrimmedAt(state, hidden, r, q);
      TrimStepAt(state, hidden, r, p, q);
    }
  }

  // There is one trimmed document, so the order in which paths are removed is of no consequence.
  lemma TrimIsUnique<V>(state: Node<V>, hidden: set<Path>, a: Node<V>, b: Node<V>)
    requires Trimmed(state, hidden, a) && Trimmed(state, hidden, b)
    ensures a == b
  {
    hide Under, Get;
    forall q: seq<string>
      ensures Similar(Get(a, q), Get(b, q))
    {
      assert TrimmedAt(state, hidden, a, q) && TrimmedAt(state, hidden, b, q);
    }
    SameEverywhere(a, b);
  }

  // A path unrelated to every hidden one keeps its whole subdocument.
  lemma UnrelatedUnchanged<V>(state: Node<V>, hidden: set<Path>, r: Node<V>, q: seq<string>)
    requires Trimmed(state, hidden, r) && !Under(hidden, q) && !Above(hidden, q)
    ensures Get(r, q) == Get(state, q)
  {
    assert TrimmedAt(state, hidden, r, q);
    if Get(r, q).Some? {
      var a, b := Get(r, q).value, Get(state, q).value;
      forall s: seq<string>
        ensures Similar(Get(a, s), Get(b, s))
      {
        assert TrimmedAt(state, hidden, r, q + s);
        GetThrough(r, q, q + s);
        GetThrough(state, q, q + s);
        assert (q + s)[|q|..] == s;
      }
      hide Get;
      SameEverywhere(a, b);
    }
  }

  // Non-interference: states that differ under hidden paths only are trimmed to one document.
  lemma TrimNonInterference<V>(s: Node<V>, t: Node<V>, hidden: set<Path>, a: Node<V>, b: Node<V>)
    requires forall q: seq<string> :: Under(hidden, q) || Similar(Get(s, q), Get(t, q))
    requires Trimmed(s, hidden, a) && Trimmed(t, hidden, b)
    ensures a == b
  {
    hide Under, Get;
    forall q: seq<string>
      ensures TrimmedAt(s, hidden, b, q)
    {
      assert TrimmedAt(t, hidden, b, q);
      assert Under(hidden, q) || Similar(Get(s, q), Get(t, q));
    }
    TrimIsUnique(s, hidden, a, b);
  }

  // ----- transformations

  function Step<V>(n: Node<V>, t: Transformation, redacted: V): (r: Node<V>)
    requires n.Dict?
    ensures r.Dict?
  {
    match t
    case Omit(path) => Pop(n, path)
    case Redact(path) => if Get(n, path).Some? then Set(n, path, Leaf(redacted)) else n
    case Rename(path, target) =>
      var value := Get(n, path);
      if value.None? then n else Set(Pop(n, path), target, value.value)
  }

  function Transform<V>(n: Node<V>, ts: seq<Transformation>, redacted: V): (r: Node<V>)
    requires n.Dict?
    ensures r.Dict?
  {
    if ts == [] then n else Step(Transform(n, ts[..|ts| - 1], redacted), ts[|ts| - 1], redacted)
  }

  predicate LeafAt<V(==)>(n: Node<V>, q: seq<string>, x: V) { Get(n, q) == Some(Leaf(x)) }

  ghost predicate Contains<V>(n: Node<V>, x: V) { exists q: seq<string> :: LeafAt(n, q, x) }

  lemma PopAddsNoLeaf<V>(n: Node<V>, p: Path, q: seq<string>, x: V)
    requires n.Dict? && LeafAt(Pop(n, p), q, x)
    ensures LeafAt(n, q, x)
  {
    hide Get, Pop;
    if p <= q {
      GetPopBelow(n, p, q);
    } else if q < p {
      GetPopAbove(n, p, q);
    } else {
      GetPopApart(n, p, q);
    }
  }

  lemma SetAddsItsOwnLeaves<V>(n: Node<V>, p: Path, v: Node<V>, q: seq<string>, x: V)
    requires n.Dict? && LeafAt(Set(n, p, v), q, x)
    ensures if p <= q then LeafAt(v, q[|p|..], x) else LeafAt(n, q, x)
  {
    hide Get, Set;
    if p <= q {
      GetSetBelow(n, p, v, q);
    } else if q < p {
      GetSetAbove(n, p, v, q);
    } else {
      GetSetApart(n, p, v, q);
    }
  }

  // A step shows no leaf that was not there, but the redaction mark; and moves none, unless it renames.
  lemma StepDisclosesNothing<V>(n: Node<V>, t: Transformation, redacted: V, q: seq<string>, x: V)
    requires n.Dict? && LeafAt(Step(n, t, redacted), q, x)
    ensures x == redacted || Contains(n, x)
    ensures !t.Rename? ==> x == redacted || LeafAt(n, q, x)
  {
    match t
    case Omit(path) =>
      PopAddsNoLeaf(n, path, q, x);
    case Redact(path) =>
      if Get(n, path).Some? {
        SetAddsItsOwnLeaves(n, path, Leaf(redacted), q, x);
      }
    case Rename(path, target) =>
      if Get(n, path).Some? {
        var v := Get(n, path).value;
        SetAddsItsOwnLeaves(Pop(n, path), target, v, q, x);
        if target <= q {
          var rest := q[|target|..];
          GetThrough(n, path, path + rest);
          assert (path + rest)[|path|..] == rest;
          assert LeafAt(n, path + rest, x);
        } else {
          PopAddsNoLeaf(n, path, q, x);
        }
      }
  }

  lemma {:induction false} TransformDisclosesNothing<V>(n: Node<V>, ts: seq<Transformation>, redacted: V, q: seq<string>, x: V)
    requires n.Dict? && LeafAt(Transform(n, ts, redacted), q, x)
    ensures x == redacted || Contains(n, x)
    ensures (forall t :: t in ts ==> !t.Rename?) ==> x == redacted || LeafAt(n, q, x)
    decreases |ts|
  {
    if ts != [] {
      hide Step;
      var init, last := ts[..|ts| - 1], ts[|ts| - 1];
      var before := Transform(n, init, redacted);
      StepDisclosesNothing(before, last, redacted, q, x);
      if x != redacted {
        var p: seq<string> :| LeafAt(before, p, x) && (!last.Rename? ==> p == q);
        TransformDisclosesNothing(n, init, redacted, p, x);
        assert last in ts;
      }
    }
  }

  // Redacted, or gone.
  predicate Masked<V(==)>(n: Node<V>, p: Path, redacted: V) {
    Get(n, p) == None || Get(n, p) == Some(Leaf(redacted))
  }

  // What one step does to the path: hides whatever is there, shows something there, or leaves it as it is.
  datatype Effect = Hides | Shows | Keeps

  function EffectOn<V(==)>(n: Node<V>, t: Transformation, p: Path, redacted: V): Effect {
    match t
    case Omit(path) => if path <= p then Hides else Keeps
    case Redact(path) => if path <= p then Hides else Keeps
    case Rename(path, target) =>
      var value := Get(n, path);
      if value.None? then Keeps
      else if target <= p then
        if Get(value.value, p[|target|..]) in [None, Some(Leaf(redacted))] then Hides else Shows
      else if p < target then Shows
      else if path <= p then Hides
      else Keeps
  }

  lemma PopEffect<V>(n: Node<V>, p: Path, redacted: V, at: Path)
    requires n.Dict?
    ensures Masked(Pop(n, at), p, redacted) <==> at <= p || Masked(n, p, redacted)
  {
    hide Get, Pop;
    if at <= p {
      GetPopBelow(n, at, p);
    } else if p < at {
      GetPopAbove(n, at, p);
    } else {
      GetPopApart(n, at, p);
    }
  }

  lemma SetEffect<V>(n: Node<V>, p: Path, redacted: V, at: Path, v: Node<V>)
    requires n.Dict?
    ensures Masked(Set(n, at, v), p, redacted)
        <==> if at <= p then Get(v, p[|at|..]) in [None, Some(Leaf(redacted))] else !(p < at) && Masked(n, p, redacted)
  {
    hide Get, Set;
    if at <= p {
      GetSetBelow(n, at, v, p);
    } else if p < at {
      GetSetAbove(n, at, v, p);
    } else {
      GetSetApart(n, at, v, p);
    }
  }

  // One step, exactly.
  lemma StepEffect<V>(n: Node<V>, t: Transformation, p: Path, redacted: V)
    requires n.Dict?
    ensures var e := EffectOn(n, t, p, redacted);
      Masked(Step(n, t, redacted), p, redacted) <==> e == Hides || (e == Keeps && Masked(n, p, redacted))
  {
    match t
    case Omit(path) =>
      PopEffect(n, p, redacted, path);
    case Redact(path) =>
      RedactEffect(n, path, p, redacted);
    case Rename(path, target) =>
      if Get(n, path).Some? {
        hide Pop, Set, Get, Masked;
        PopEffect(n, p, redacted, path);
        SetEffect(Pop(n, path), p, redacted, target, Get(n, path).value);
      }
  }

  lemma RedactEffect<V>(n: Node<V>, path: Path, p: Path, redacted: V)
    requires n.Dict?
    ensures Masked(Step(n, Redact(path), redacted), p, redacted) <==> path <= p || Masked(n, p, redacted)
  {
    if Get(n, path).Some? {
      SetEffect(n, p, redacted, path, Leaf(redacted));
      if p < path {
        Inside(n, p, path);
      }
    } else if path <= p {
      NoneBelowNone(n, path, p);
    }
  }

  ghost function EffectAt<V>(n: Node<V>, ts: seq<Transformation>, j: nat, p: Path, redacted: V): Effect
    requires n.Dict? && j < |ts|
  {
    EffectOn(Transform(n, ts[..j], redacted), ts[j], p, redacted)
  }

  ghost predicate KeptFrom<V>(n: Node<V>, ts: seq<Transformation>, k: nat, p: Path, redacted: V)
    requires n.Dict?
  {
    forall j :: k <= j < |ts| ==> EffectAt(n, ts, j, p, redacted) == Keeps
  }

  // The last step with an effect on the path has the last word; without one, the document itself.
  ghost predicate LastWordHides<V>(n: Node<V>, ts: seq<Transformation>, p: Path, redacted: V)
    requires n.Dict?
  {
    || (Masked(n, p, redacted) && KeptFrom(n, ts, 0, p, redacted))
    || exists k :: 0 <= k < |ts| && EffectAt(n, ts, k, p, redacted) == Hides && KeptFrom(n, ts, k + 1, p, redacted)
  }

  lemma {:induction false} MaskExactly<V>(n: Node<V>, ts: seq<Transformation>, p: Path, redacted: V)
    requires n.Dict?
    ensures Masked(Transform(n, ts, redacted), p, redacted) <==> LastWordHides(n, ts, p, redacted)
    decreases |ts|
  {
    if ts != [] {
      var init, last := ts[..|ts| - 1], |ts| - 1;
      MaskExactly(n, init, p, redacted);
      StepEffect(Transform(n, init, redacted), ts[last], p, redacted);
      OneMoreEffect(n, ts, p, redacted);
    }
  }

  lemma OneMoreEffect<V>(n: Node<V>, ts: seq<Transformation>, p: Path, redacted: V)
    requires n.Dict? && ts != []
    ensures var init, e := ts[..|ts| - 1], EffectAt(n, ts, |ts| - 1, p, redacted);
      LastWordHides(n, ts, p, redacted) <==> e == Hides || (e == Keeps && LastWordHides(n, init, p, redacted))
  {
    hide EffectOn, Transform, Masked;
    var init, last := ts[..|ts| - 1], |ts| - 1;
    forall j | 0 <= j < last
      ensures EffectAt(n, init, j, p, redacted) == EffectAt(n, ts, j, p, redacted)
    {
      assert init[..j] == ts[..j];
    }
    forall k | 0 <= k <= last
      ensures KeptFrom(n, ts, k, p, redacted)
          <==> KeptFrom(n, init, k, p, redacted) && EffectAt(n, ts, last, p, redacted) == Keeps
    {
    }
    assert KeptFrom(n, ts, last + 1, p, redacted);
    hide EffectAt, KeptFrom;
  }

  // Masked once the first j transformations have run.
  ghost predicate MaskedAfter<V>(n: Node<V>, ts: seq<Transformation>, j: nat, p: Path, redacted: V)
    requires n.Dict? && j <= |ts|
  {
    Masked(Transform(n, ts[..j], redacted), p, redacted)
  }

  lemma MaskedNext<V>(n: Node<V>, ts: seq<Transformation>, j: nat, p: Path, redacted: V)
    requires n.Dict? && j < |ts|
    ensures var e := EffectAt(n, ts, j, p, redacted);
      MaskedAfter(n, ts, j + 1, p, redacted) <==> e == Hides || (e == Keeps && MaskedAfter(n, ts, j, p, redacted))
  {
    hide Step, EffectOn, Masked;
    assert ts[..j + 1][..j] == ts[..j];
    StepEffect(Transform(n, ts[..j], redacted), ts[j], p, redacted);
  }

  // What a step hides stays hidden after every later step exactly when none of them shows something there.
  lemma MaskStaysExactly<V>(n: Node<V>, ts: seq<Transformation>, k: nat, redacted: V)
    requires n.Dict? && k < |ts| && !ts[k].Rename?
    ensures (forall j :: k < j <= |ts| ==> MaskedAfter(n, ts, j, ts[k].path, redacted))
        <==> forall j :: k < j < |ts| ==> EffectAt(n, ts, j, ts[k].path, redacted) != Shows
  {
    var p := ts[k].path;
    HidesItself(Transform(n, ts[..k], redacted), ts[k], redacted);
    assert EffectAt(n, ts, k, p, redacted) == Hides;
    hide EffectAt, MaskedAfter;
    MaskedNext(n, ts, k, p, redacted);
    if forall j :: k < j < |ts| ==> EffectAt(n, ts, j, p, redacted) != Shows {
      for j := k + 1 to |ts|
        invariant forall i :: k < i <= j ==> MaskedAfter(n, ts, i, p, redacted)
      {
        assert EffectAt(n, ts, j, p, redacted) != Shows;
        MaskedNext(n, ts, j, p, redacted);
      }
    } else {
      var j :| k < j < |ts| && EffectAt(n, ts, j, p, redacted) == Shows;
      MaskedNext(n, ts, j, p, redacted);
    }
  }

  lemma HidesItself<V>(n: Node<V>, t: Transformation, redacted: V)
    requires !t.Rename?
    ensures EffectOn(n, t, t.path, redacted) == Hides
  {
  }

  // So it stays hidden when later renamings keep clear of the path.
  lemma MaskLasts<V>(n: Node<V>, ts: seq<Transformation>, k: nat, redacted: V)
    requires n.Dict? && k < |ts| && !ts[k].Rename?
    requires forall j :: k < j < |ts| && ts[j].Rename? ==> Apart(ts[j].target, ts[k].path)
    ensures Masked(Transform(n, ts, redacted), ts[k].path, redacted)
  {
    forall j | k < j < |ts|
      ensures EffectAt(n, ts, j, ts[k].path, redacted) != Shows
    {
    }
    hide EffectAt, Transform, Masked;
    MaskStaysExactly(n, ts, k, redacted);
    assert MaskedAfter(n, ts, |ts|, ts[k].path, redacted);
    assert ts[..|ts|] == ts;
  }

  // Renaming onto a redacted path brings a value back there.
  lemma RenameUnmasks<V>(x: V, redacted: V)
    requires x != redacted
    ensures var n := Dict(map["a" := Leaf(x), "b" := Leaf(x)]);
      !Masked(Transform(n, [Redact(["a"]), Rename(["b"], ["a"])], redacted), ["a"], redacted)
  {
    var a: Path, b: Path := ["a"], ["b"];
    var n := Dict(map["a" := Leaf(x), "b" := Leaf(x)]);
    var ts := [Redact(a), Rename(b, a)];
    assert a[1..] == [] && b[1..] == [];
    assert ts[..1] == [Redact(a)] && [Redact(a)][..0] == [];
    var m := Transform(n, [Redact(a)], redacted);
    assert Get(n, a) == Get(n.entries["a"], a[1..]);
    assert Transform(n, [], redacted) == n && [Redact(a)][0] == Redact(a);
    assert m == Step(Transform(n, [Redact(a)][..0], redacted), Redact(a), redacted);
    assert Get(m, b) == Get(Leaf(x), b[1..]);
    GetSetBelow(Pop(m, b), a, Leaf(x), a);
  }

  // ----- the whole projection

  // The base document the transformations start from.
  ghost predicate IsBase<V>(state: Node<V>, c: Compiled, base: Outcome<V>) {
    if c.visiblePaths != [] then base == Collect(state, c, c.visiblePaths)
    else if c.allowEmptyVisible then base.Ok? && Trimmed(state, Hidden(c), base.value)
    else base == Ok(Dict(map[]))
  }

  function PathSet(paths: seq<Path>): set<Path> { set p | p in paths }

  function Hidden(c: Compiled): set<Path> { PathSet(c.omittedPaths) + c.denyLabels }

  ghost predicate IsProjection<V(!new)>(state: Node<V>, c: Compiled, access: Access, redacted: V, r: Outcome<V>) {
    if c.unsupported then r == Err(UnsupportedSemantics)
    else if access.NoActor? then r == Err(AccessDenied)
    else if access == Decided(false) then r == Ok(Dict(map[]))
    else exists base: Outcome<V> :: IsBase(state, c, base) && r == Finished(c, base, redacted)
  }

  // Denying everything skips the transformations; they would find nothing anyway.
  function Finished<V>(c: Compiled, base: Outcome<V>, redacted: V): Outcome<V> {
    if base.Ok? && base.value.Dict? then Ok(Transform(base.value, c.transformations, redacted)) else base
  }

  lemma {:induction false} NothingToTransform<V>(ts: seq<Transformation>, redacted: V)
    ensures Transform(Dict(map[]), ts, redacted) == Dict(map[])
    decreases |ts|
  {
    if ts != [] {
      NothingToTransform(ts[..|ts| - 1], redacted);
    }
  }

  method CollectVisible<V>(state: Node<V>, c: Compiled) returns (r: Outcome<V>)
    ensures r == Collect(state, c, c.visiblePaths)
  {
    var result: Node<V> := Dict(map[]);
    var vs := c.visiblePaths;
    for i := 0 to |vs|
      invariant Collect(state, c, vs[..i]) == Ok(result) && result.Dict?
    {
      var path := vs[i];
      var root: Path := [path[0]];
      assert vs[..i + 1][..i] == vs[..i];
      if root in c.denyLabels || path in c.denyLabels {
        continue;
      }
      if path in c.omittedPaths || root in c.omittedPaths {
        continue;
      }
      var value := GetPath(state, path);
      if value.None? {
        if c.failOnMissing {
          StaysMissing(state, c, vs, i + 1);
          return Err(PathMissing);
        }
        continue;
      }
      result := Set(result, path, value.value);
    }
    assert vs[..|vs|] == vs;
    r := Ok(result);
  }

  // One missing path fails the whole projection.
  lemma {:induction false} StaysMissing<V>(state: Node<V>, c: Compiled, vs: seq<Path>, i: nat)
    requires i <= |vs| && Collect(state, c, vs[..i]) == Err(PathMissing)
    ensures Collect(state, c, vs) == Err(PathMissing)
    decreases |vs| - i
  {
    if i == |vs| {
      assert vs[..i] == vs;
    } else {
      assert vs[..i + 1][..i] == vs[..i];
      StaysMissing(state, c, vs, i + 1);
    }
  }

  method TrimState<V>(state: Node<V>, c: Compiled) returns (r: Node<V>)
    requires state.Dict?
    ensures Trimmed(state, Hidden(c), r)
  {
    hide Trimmed, Pop;
    r := state;
    TrimStart(state);
    ghost var gone: set<Path> := {};
    for i := 0 to |c.omittedPaths|
      invariant Trimmed(state, gone, r)
      invariant gone == PathSet(c.omittedPaths[..i])
    {
      assert c.omittedPaths[..i + 1] == c.omittedPaths[..i] + [c.omittedPaths[i]];
      TrimStep(state, gone, r, c.omittedPaths[i]);
      r := Pop(r, c.omittedPaths[i]);
      gone := gone + {c.omittedPaths[i]};
    }
    assert c.omittedPaths[..|c.omittedPaths|] == c.omittedPaths;
    var labels := c.denyLabels;
    while labels != {}
      invariant Trimmed(state, gone, r)
      invariant gone + labels == Hidden(c)
      decreases |labels|
    {
      var tag: Path :| tag in labels;
      TrimStep(state, gone, r, tag);
      r := Pop(r, tag);
      gone, labels := gone + {tag}, labels - {tag};
    }
  }

  method ApplyTransformations<V>(base: Node<V>, ts: seq<Transformation>, redacted: V) returns (r: Node<V>)
    requires base.Dict?
    ensures r == Transform(base, ts, redacted)
  {
    r := base;
    for i := 0 to |ts|
      invariant r == Transform(base, ts[..i], redacted)
    {
      assert ts[..i + 1][..i] == ts[..i];
      match ts[i] {
        case Omit(path) =>
          r := Pop(r, path);
        case Redact(path) =>
          var found := GetPath(r, path);
          if found.Some? {
            r := Set(r, path, Leaf(redacted));
          }
        case Rename(path, target) =>
          var value := GetPath(r, path);
          if value.None? {
            continue;
          }
          r := Pop(r, path);
          r := Set(r, target, value.value);
      }
    }
    assert ts[..|ts|] == ts;
  }

  method ProjectState<V(!new)>(state: Node<V>, c: Compiled, access: Access, redacted: V) returns (r: Outcome<V>)
    requires state.Dict?
    ensures IsProjection(state, c, access, redacted, r)
  {
    hide Trimmed, Collect, Transform;
    if c.unsupported {
      return Err(UnsupportedSemantics);
    }
    if access.NoActor? {
      return Err(AccessDenied);
    }
    if access == Decided(false) {
      return Ok(Dict(map[]));
    }
    var base: Outcome<V>;
    if c.visiblePaths != [] {
      base := CollectVisible(state, c);
      if base.Err? {
        assert IsBase(state, c, base);
        return base;
      }
    } else if c.allowEmptyVisible {
      var trimmed := TrimState(state, c);
      base := Ok(trimmed);
    } else {
      base := Ok(Dict(map[]));
      NothingToTransform(c.transformations, redacted);
      assert IsBase(state, c, base);
      return base;
    }
    assert IsBase(state, c, base);
    TrimmedIsDict(state, Hidden(c), base.value);
    var result := ApplyTransformations(base.value, c.transformations, redacted);
    r := Ok(result);
  }

  lemma TrimmedIsDict<V>(state: Node<V>, hidden: set<Path>, r: Node<V>)
    ensures Trimmed(state, hidden, r) ==> r.Dict?
  {
  }

  // The projection is a function of its inputs, whatever order the deny labels are removed in.
  lemma ProjectionIsUnique<V(!new)>(state: Node<V>, c: Compiled, access: Access, redacted: V, r: Outcome<V>, s: Outcome<V>)
    requires IsProjection(state, c, access, redacted, r) && IsProjection(state, c, access, redacted, s)
    ensures r == s
  {
    hide Trimmed, Collect, Transform;
    if !c.unsupported && !access.NoActor? && access != Decided(false) {
      var a: Outcome<V> :| IsBase(state, c, a) && r == Finished(c, a, redacted);
      var b: Outcome<V> :| IsBase(state, c, b) && s == Finished(c, b, redacted);
      if c.visiblePaths == [] && c.allowEmptyVisible {
        TrimIsUnique(state, Hidden(c), a.value, b.value);
      }
    }
  }

  // A leaf the caller may be shown: the state's own, under an active visible path where there are visible paths,
  // and otherwise outside every omitted path and deny label.
  ghost predicate MayShow<V>(state: Node<V>, c: Compiled, x: V) {
    exists q: seq<string> :: LeafAt(state, q, x) && Permits(c, q)
  }

  ghost predicate Permits(c: Compiled, q: seq<string>) {
    if c.visiblePaths != [] then exists v: Path :: v in c.visiblePaths && Active(c, v) && v <= q
    else c.allowEmptyVisible && !Under(Hidden(c), q)
  }

  lemma BaseShowsPermitted<V>(state: Node<V>, c: Compiled, base: Outcome<V>, q: seq<string>, x: V)
    requires state.Dict? && IsBase(state, c, base) && base.Ok? && LeafAt(base.value, q, x)
    ensures LeafAt(state, q, x) && Permits(c, q)
  {
    hide Active, Under;
    if c.visiblePaths != [] {
      LeavesAreConfined(state, c, c.visiblePaths, q);
    } else if c.allowEmptyVisible {
      assert TrimmedAt(state, Hidden(c), base.value, q);
    }
  }

  // End to end: whatever leaf the outcome holds, wherever renaming put it, is the redaction mark or one the
  // projection permits.
  lemma ProjectionDisclosesOnlyPermitted<V(!new)>(state: Node<V>, c: Compiled, access: Access, redacted: V, r: Outcome<V>,
                                            q: seq<string>, x: V)
    requires state.Dict? && IsProjection(state, c, access, redacted, r) && r.Ok? && LeafAt(r.value, q, x)
    ensures x == redacted || MayShow(state, c, x)
    ensures !c.unsupported && access != NoActor && access != Decided(false)
  {
    hide Transform, Permits, IsBase;
    if c.unsupported || access.NoActor? || access == Decided(false) {
      assert false;
    } else {
      var base: Outcome<V> :| IsBase(state, c, base) && r == Finished(c, base, redacted);
      BaseIsDict(state, c, base);
      TransformDisclosesNothing(base.value, c.transformations, redacted, q, x);
      if x != redacted {
        var p: seq<string> :| LeafAt(base.value, p, x);
        BaseShowsPermitted(state, c, base, p, x);
      }
    }
  }

  lemma BaseIsDict<V>(state: Node<V>, c: Compiled, base: Outcome<V>)
    requires IsBase(state, c, base) && base.Ok?
    ensures base.value.Dict?
  {
  }

  // What the projection may tell of the two states is the same: the active visible paths, or, without any, everything
  // outside the hidden ones.
  ghost predicate Alike<V>(c: Compiled, s: Node<V>, t: Node<V>) {
    if c.visiblePaths != [] then forall v: Path :: v in c.visiblePaths && Active(c, v) ==> Get(s, v) == Get(t, v)
    else c.allowEmptyVisible ==> forall q: seq<string> :: Under(Hidden(c), q) || Similar(Get(s, q), Get(t, q))
  }

  // Such states are projected alike, error or not, in either mode.
  lemma ProjectionNonInterference<V(!new)>(s: Node<V>, t: Node<V>, c: Compiled, access: Access, redacted: V,
                                           a: Outcome<V>, b: Outcome<V>)
    requires Alike(c, s, t) && IsProjection(s, c, access, redacted, a) && IsProjection(t, c, access, redacted, b)
    ensures a == b
  {
    hide Collect, Transform, Trimmed;
    if !c.unsupported && !access.NoActor? && access != Decided(false) {
      var x: Outcome<V> :| IsBase(s, c, x) && a == Finished(c, x, redacted);
      var y: Outcome<V> :| IsBase(t, c, y) && b == Finished(c, y, redacted);
      if c.visiblePaths != [] {
        NonInterference(s, t, c, c.visiblePaths);
      } else if c.allowEmptyVisible {
        TrimNonInterference(s, t, Hidden(c), x.value, y.value);
      }
    }
  }
}
