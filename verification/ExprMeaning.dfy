/** What each construct of the expression language means: branches, connectives, paths, quantifiers and functions. */
module ExprMeaning {
  import opened Wrappers
  import opened ExprAst
  import opened ExprEval
  import opened ExprEquality

  // ----- truth

  const FALSY: set<Value> := {VNone, VBool(false), VInt(0), VFloat(0.0), VStr(""), VList([]), VDict([])}

  // The values that count as false are these seven.
  lemma TruthyExactly(v: Value)
    ensures Truthy(v) <==> v !in FALSY
  {
  }

  // `and` stops at a false left operand and `or` at a true one; otherwise the right one decides. Both give booleans.
  lemma Connectives(a: Expr, b: Expr, roots: Roots, env: Env, host: Host)
    ensures var l, r := EvalBool(a, roots, env, host), EvalBool(b, roots, env, host);
      var both, either := Eval(Binary(And, a, b), roots, env, host), Eval(Binary(Or, a, b), roots, env, host);
      && (both == Ok(VBool(true)) <==> l == Ok(true) && r == Ok(true))
      && (both == Ok(VBool(false)) <==> l == Ok(false) || (l == Ok(true) && r == Ok(false)))
      && (either == Ok(VBool(false)) <==> l == Ok(false) && r == Ok(false))
      && (either == Ok(VBool(true)) <==> l == Ok(true) || (l == Ok(false) && r == Ok(true)))
      && (l.Err? ==> both == either == Err(l.error))
      && (l == Ok(true) && r.Err? ==> both == Err(r.error))
      && (l == Ok(false) && r.Err? ==> either == Err(r.error))
  {
    hide Truthy;
  }

  // A conditional takes the first branch exactly on a true test, and evaluates no other.
  lemma Branches(test: Expr, a: Expr, b: Expr, roots: Roots, env: Env, host: Host)
    ensures Eval(Conditional(Literal(VBool(true)), a, b), roots, env, host) == Eval(a, roots, env, host)
    ensures Eval(Conditional(Literal(VBool(false)), a, b), roots, env, host) == Eval(b, roots, env, host)
    ensures Eval(Conditional(Unary(NotOp, test), a, b), roots, env, host) == Eval(Conditional(test, b, a), roots, env, host)
  {
    var t := EvalBool(test, roots, env, host);
    assert EvalBool(Unary(NotOp, test), roots, env, host) == if t.Err? then t else Ok(!t.value);
    hide Truthy;
  }

  // The strict operators evaluate the left operand first, and apply to both values in that order.
  lemma StrictOperators(op: BinOp, a: Expr, b: Expr, roots: Roots, env: Env, host: Host)
    requires !op.And? && !op.Or?
    ensures var l, r := Eval(a, roots, env, host), Eval(b, roots, env, host);
      Eval(Binary(op, a, b), roots, env, host)
      == if l.Err? then l else if r.Err? then r else Apply(op, l.value, r.value)
    ensures var l, r := Eval(a, roots, env, host), Eval(b, roots, env, host);
      Eval(Membership(a, b, false), roots, env, host)
      == if l.Err? then l else if r.Err? then r
         else if Contains(r.value, l.value).Err? then Err(Contains(r.value, l.value).error)
         else Ok(VBool(Contains(r.value, l.value).value))
  {
    hide Apply, Contains;
  }

  // ----- paths

  function ValueUnder(entries: Entries, name: string): Value {
    if Lookup(entries, name).Some? then Lookup(entries, name).value else VNone
  }

  // Unbound, the first segment is looked up in the document its root names; bound, its value is taken. A missing key
  // gives null.
  lemma RootsAreRead(name: string, roots: Roots, env: Env, host: Host)
    ensures name !in env ==>
      && Eval(PathRef(State, [name]), roots, env, host) == Ok(ValueUnder(roots.state, name))
      && Eval(PathRef(Actor, [name]), roots, env, host) == Ok(ValueUnder(roots.actor, name))
      && Eval(PathRef(Payload, [name]), roots, env, host) == Ok(ValueUnder(roots.payload, name))
      && Eval(PathRef(Context, [name]), roots, env, host) == Ok(ValueUnder(roots.context, name))
    ensures name in env ==> forall root :: Eval(PathRef(root, [name]), roots, env, host) == Ok(env[name])
  {
    assert [name][1..] == [];
    forall root: PathRoot
      ensures IndexAll(RootValue(root, roots), [name], host) == Index(RootValue(root, roots), name, host)
      ensures name !in env ==> Eval(PathRef(root, [name]), roots, env, host) == Index(RootValue(root, roots), name, host)
    {
    }
    hide Lookup;
  }

  // Reading a path is reading its first part and then the rest from there.
  lemma {:induction false} PathsCompose(cur: Value, p: seq<string>, q: seq<string>, host: Host)
    ensures var first := IndexAll(cur, p, host);
      IndexAll(cur, p + q, host) == if first.Err? then first else IndexAll(first.value, q, host)
    decreases |p|
  {
    if p == [] {
      assert p + q == q;
    } else {
      assert (p + q)[1..] == p[1..] + q;
      var next := Index(cur, p[0], host);
      if next.Ok? {
        PathsCompose(next.value, p[1..], q, host);
      }
    }
  }

  // Null swallows every further segment; a value that is no dict is asked for an attribute, and has it or fails.
  lemma {:induction false} NullAbsorbs(p: seq<string>, host: Host)
    ensures IndexAll(VNone, p, host) == Ok(VNone)
    decreases |p|
  {
    if p != [] {
      NullAbsorbs(p[1..], host);
    }
  }

  lemma AttributesAreAsked(v: Value, part: string, host: Host)
    requires !v.VNone? && !v.VDict?
    ensures IndexAll(v, [part], host)
         == if host.attribute(v, part).Some? then Ok(host.attribute(v, part).value) else Err(BadPath)
  {
    assert [part][1..] == [];
  }

  // ----- quantifiers

  // The members of a list are its items, those of a dict its values; nothing else can be ranged over, and no more
  // members than the bound. Over none, `all` is true and `any` false.
  lemma QuantifiersRange(kind: Quantifier, variable: string, v: Value, body: Expr, bound: int,
                         roots: Roots, env: Env, host: Host)
    ensures var r := Eval(CollectionPred(kind, variable, Literal(v), body, bound), roots, env, host);
      var size := if v.VList? then |v.items| else if v.VDict? then |v.entries| else 0;
      && (!v.VList? && !v.VDict? ==> r == Err(TypeMismatch))
      && ((v.VList? || v.VDict?) && size > bound ==> r == Err(BoundExceeded))
      && ((v.VList? || v.VDict?) && size == 0 <= bound ==> r == Ok(VBool(kind.All?)))
      && ((v.VList? || v.VDict?) && size <= bound ==>
            var q := Quantify(kind, variable, Members(v).value, body, roots, env, host);
            r == if q.Err? then Err(q.error) else Ok(VBool(q.value)))
    ensures v.VDict? ==> Members(v).Some? && |Members(v).value| == |v.entries|
                         && forall i :: 0 <= i < |v.entries| ==> Members(v).value[i] == v.entries[i].1
    ensures v.VList? ==> Members(v) == Some(v.items)
  {
    if v.VDict? {
      ValuesInOrder(v.entries);
    }
    hide Values;
  }

  lemma {:induction false} ValuesInOrder(entries: Entries)
    ensures |Values(entries)| == |Keys(entries)| == |entries|
    ensures forall i :: 0 <= i < |entries| ==> Values(entries)[i] == entries[i].1 && Keys(entries)[i] == VStr(entries[i].0)
  {
    if entries != [] {
      ValuesInOrder(entries[1..]);
      assert forall i :: 1 <= i < |entries| ==> entries[i] == entries[1..][i - 1];
    }
  }

  // ----- functions

  // Only the listed functions can be called, and none without an argument.
  lemma CallsAreListed(name: string, args: seq<Expr>, roots: Roots, env: Env, host: Host)
    ensures name !in ALLOWLISTED ==> Eval(Call(name, args), roots, env, host) == Err(UnknownFunction)
    ensures name in ALLOWLISTED ==> Eval(Call(name, []), roots, env, host) == Err(CallFailed)
  {
  }

  // Arguments are evaluated from left to right, each in its place, up to the first that fails.
  lemma {:induction false} ArgumentsInOrder(args: seq<Expr>, n: nat, roots: Roots, env: Env, host: Host)
    requires n <= |args| && (forall i :: 0 <= i < n ==> Eval(args[i], roots, env, host).Ok?)
    ensures n == |args| ==>
      var vs := EvalAll(args, roots, env, host);
      vs.Ok? && |vs.value| == n && forall i :: 0 <= i < n ==> Eval(args[i], roots, env, host) == Ok(vs.value[i])
    ensures n < |args| && Eval(args[n], roots, env, host).Err? ==>
      EvalAll(args, roots, env, host) == Err(Eval(args[n], roots, env, host).error)
    decreases n
  {
    hide Eval;
    if n > 0 {
      assert forall i :: 0 <= i < n - 1 ==> args[1..][i] == args[i + 1];
      assert n < |args| ==> args[1..][n - 1] == args[n];
      ArgumentsInOrder(args[1..], n - 1, roots, env, host);
    }
  }

  // `len` counts the characters of a string, the items of a list and the keys of a dict, and fails on all else.
  lemma LengthExactly(v: Value, host: Host)
    ensures var n := CallBuiltin("len", [v], host);
      && (n.Ok? <==> v.VStr? || v.VList? || v.VDict?)
      && (n.Ok? ==> n.value.VInt? && Elements(v).Some? && n.value.i == |Elements(v).value|)
      && (n.Err? ==> n.error == CallFailed)
  {
    if v.VDict? {
      ValuesInOrder(v.entries);
    }
  }

  // `abs` is the value without its sign: not negative, and the number or its negative; booleans become numbers.
  lemma AbsoluteExactly(v: Value, host: Host)
    ensures var a := CallBuiltin("abs", [v], host);
      && (a.Ok? <==> Magnitude(v).Some?)
      && (a.Ok? ==> IsNumber(a.value) && (a.value.VFloat? <==> v.VFloat?)
                    && AsReal(a.value) >= 0.0 && AsReal(a.value) in {Magnitude(v).value, -Magnitude(v).value})
  {
  }

  // `int` cuts off the fraction: as close to zero as the number, on its side, and less than one away. It and `float`
  // leave the value of whole numbers alone.
  lemma IntegerExactly(v: Value, host: Host)
    requires Magnitude(v).Some?
    ensures var n := CallBuiltin("int", [v], host);
      && n.Ok? && n.value.VInt?
      && var (x, i) := (Magnitude(v).value, n.value.i as real);
         if x >= 0.0 then 0.0 <= i <= x < i + 1.0 else i - 1.0 < x <= i <= 0.0
    ensures !v.VFloat? ==> Same(CallBuiltin("int", [v], host).value, v)
  {
  }

  lemma FloatExactly(v: Value, host: Host)
    requires Magnitude(v).Some?
    ensures var x := CallBuiltin("float", [v], host);
      x.Ok? && x.value.VFloat? && Same(x.value, v)
  {
  }

  // Null, lists and dicts have no number.
  lemma ConversionsRefuse(v: Value, host: Host)
    requires v.VNone? || v.VList? || v.VDict?
    ensures CallBuiltin("int", [v], host) == CallBuiltin("float", [v], host) == Err(CallFailed)
  {
  }

  // The other conversions are the host's own, on strings and on the text of a value.
  lemma ConversionsAreTheHosts(v: Value, s: string, host: Host)
    ensures CallBuiltin("str", [v], host) == Ok(VStr(host.text(v)))
    ensures CallBuiltin("lower", [v], host) == Ok(VStr(host.lower(host.text(v))))
    ensures CallBuiltin("upper", [v], host) == Ok(VStr(host.upper(host.text(v))))
    ensures CallBuiltin("bool", [v], host) == Ok(VBool(v !in FALSY))
    ensures CallBuiltin("int", [VStr(s)], host)
         == (if host.parseInt(s).Some? then Ok(VInt(host.parseInt(s).value)) else Err(CallFailed))
    ensures CallBuiltin("float", [VStr(s)], host)
         == (if host.parseFloat(s).Some? then Ok(VFloat(host.parseFloat(s).value)) else Err(CallFailed))
  {
  }

  // `keys` and `values` list a dict in one order: looking up the i-th key gives the i-th value.
  lemma KeysAndValues(v: Value, host: Host)
    ensures var ks, vs := CallBuiltin("keys", [v], host), CallBuiltin("values", [v], host);
      && ks.Ok? == vs.Ok? == v.VDict?
      && (v.VDict? ==>
            && ks.value.VList? && vs.value.VList? && |ks.value.items| == |vs.value.items| == |v.entries|
            && (DistinctKeys(v.entries) ==>
                  forall i :: 0 <= i < |v.entries| ==>
                    ks.value.items[i].VStr? && Lookup(v.entries, ks.value.items[i].s) == Some(vs.value.items[i])))
  {
    if v.VDict? {
      ValuesInOrder(v.entries);
      if DistinctKeys(v.entries) {
        KeysLookUp(v.entries);
      }
    }
    hide Keys, Values, Lookup;
  }

  // What `min` and `max` range over: the arguments, or what a single one holds: items, keys, or characters.
  lemma ChoicesExactly(a: Value, b: Value, rest: seq<Value>, s: string)
    ensures Choices([a, b] + rest) == Some([a, b] + rest)
    ensures Choices([VList(rest)]) == Some(rest)
    ensures var cs := Choices([VStr(s)]);
      cs.Some? && |cs.value| == |s| && forall i :: 0 <= i < |s| ==> cs.value[i] == VStr([s[i]])
    ensures a.VDict? ==> Choices([a]) == Some(Keys(a.entries))
    ensures !a.VList? && !a.VStr? && !a.VDict? ==> Choices([a]) == None
  {
    hide Keys;
  }
}
