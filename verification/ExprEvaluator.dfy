/** The evaluator as written: one context whose local bindings a quantifier changes in place and restores. */
module ExprEvaluator {
  import opened Wrappers
  import opened ExprAst
  import opened ExprEval

  class EvalContext {
    const roots: Roots
    var locals: Env

    constructor (roots: Roots, locals: Env)
      ensures this.roots == roots && this.locals == locals
    {
      this.roots := roots;
      this.locals := locals;
    }
  }

  // The value or error is the pure one, and the bindings are back as they were, on every outcome.
  method Evaluate(e: Expr, ctx: EvalContext, host: Host) returns (r: Outcome)
    modifies ctx`locals
    ensures r == Eval(e, ctx.roots, old(ctx.locals), host)
    ensures ctx.locals == old(ctx.locals)
    decreases e, 1
  {
    hide Apply, CallBuiltin, Contains, Resolve, ApplyUnary;
    match e {
      case Literal(value) =>
        r := Ok(value);
      case PathRef(root, parts) =>
        r := Resolve(root, parts, ctx.roots, ctx.locals, host);
      case Unary(uop, operand) =>
        r := Evaluate(operand, ctx, host);
        if r.Ok? {
          r := ApplyUnary(uop, r.value);
        }
      case Binary(op, left, right) =>
        r := EvaluateBinary(e, op, left, right, ctx, host);
      case Conditional(test, thenBranch, elseBranch) =>
        var t := EvaluateBool(test, ctx, host);
        if t.Err? {
          return Err(t.error);
        }
        if t.value {
          r := Evaluate(thenBranch, ctx, host);
        } else {
          r := Evaluate(elseBranch, ctx, host);
        }
      case Membership(item, collection, inverted) =>
        var i := Evaluate(item, ctx, host);
        if i.Err? {
          return i;
        }
        var c := Evaluate(collection, ctx, host);
        if c.Err? {
          return c;
        }
        var found := Contains(c.value, i.value);
        r := if found.Err? then Err(found.error) else Ok(VBool(found.value != inverted));
      case Call(name, args) =>
        if name !in ALLOWLISTED {
          return Err(UnknownFunction);
        }
        var vs := EvaluateAll(args, ctx, host);
        r := if vs.Err? then Err(vs.error) else CallBuiltin(name, vs.value, host);
      case CollectionPred(kind, variable, domain, body, bound) =>
        r := EvaluateCollectionPred(e, kind, variable, domain, body, bound, ctx, host);
    }
  }

  method EvaluateBool(e: Expr, ctx: EvalContext, host: Host) returns (r: Result<bool, EvalError>)
    modifies ctx`locals
    ensures r == EvalBool(e, ctx.roots, old(ctx.locals), host)
    ensures ctx.locals == old(ctx.locals)
    decreases e, 2
  {
    var v := Evaluate(e, ctx, host);
    r := if v.Err? then Err(v.error) else Ok(Truthy(v.value));
  }

  method EvaluateBinary(e: Expr, op: BinOp, left: Expr, right: Expr, ctx: EvalContext, host: Host) returns (r: Outcome)
    requires e == Binary(op, left, right)
    modifies ctx`locals
    ensures r == Eval(e, ctx.roots, old(ctx.locals), host)
    ensures ctx.locals == old(ctx.locals)
    decreases e, 0
  {
    hide Apply;
    if op.And? || op.Or? {
      var l := EvaluateBool(left, ctx, host);
      if l.Err? {
        return Err(l.error);
      }
      if l.value == op.Or? {
        return Ok(VBool(l.value));
      }
      var b := EvaluateBool(right, ctx, host);
      return if b.Err? then Err(b.error) else Ok(VBool(b.value));
    }
    var l := Evaluate(left, ctx, host);
    if l.Err? {
      return l;
    }
    r := Evaluate(right, ctx, host);
    if r.Ok? {
      r := Apply(op, l.value, r.value);
    }
  }

  method EvaluateAll(args: seq<Expr>, ctx: EvalContext, host: Host) returns (r: Result<seq<Value>, EvalError>)
    modifies ctx`locals
    ensures r == EvalAll(args, ctx.roots, old(ctx.locals), host)
    ensures ctx.locals == old(ctx.locals)
    decreases args, 0
  {
    if args == [] {
      return Ok([]);
    }
    var v := Evaluate(args[0], ctx, host);
    if v.Err? {
      return Err(v.error);
    }
    r := EvaluateAll(args[1..], ctx, host);
    if r.Ok? {
      r := Ok([v.value] + r.value);
    }
  }

  // A collection's quantifier, given the collection's value.
  lemma PredicateOn(c: Outcome, kind: Quantifier, variable: string, domain: Expr, body: Expr, bound: int,
                    roots: Roots, env: Env, host: Host)
    requires c == Eval(domain, roots, env, host)
    ensures Eval(CollectionPred(kind, variable, domain, body, bound), roots, env, host)
         == if c.Err? then c
            else if Members(c.value).None? then Err(TypeMismatch)
            else if |Members(c.value).value| > bound then Err(BoundExceeded)
            else Boolean(Quantify(kind, variable, Members(c.value).value, body, roots, env, host))
  {
    hide Members, Quantify;
  }

  function Boolean(r: Result<bool, EvalError>): Outcome {
    if r.Err? then Err(r.error) else Ok(VBool(r.value))
  }

  // One more member.
  lemma OneMember(kind: Quantifier, variable: string, items: seq<Value>, i: nat, body: Expr, roots: Roots, env: Env, host: Host)
    requires i < |items|
    ensures var r := EvalBool(body, roots, env[variable := items[i]], host);
      Quantify(kind, variable, items[i..], body, roots, env, host)
      == if r != Ok(kind.All?) then r else Quantify(kind, variable, items[i + 1..], body, roots, env, host)
  {
    hide EvalBool;
    assert items[i..][1..] == items[i + 1..];
  }

  lemma NoMember(kind: Quantifier, variable: string, items: seq<Value>, body: Expr, roots: Roots, env: Env, host: Host)
    ensures Quantify(kind, variable, items[|items|..], body, roots, env, host) == Ok(kind.All?)
  {
  }

  method EvaluateCollectionPred(e: Expr, kind: Quantifier, variable: string, domain: Expr, body: Expr, bound: int,
                                ctx: EvalContext, host: Host) returns (r: Outcome)
    requires e == CollectionPred(kind, variable, domain, body, bound)
    modifies ctx`locals
    ensures r == Eval(e, ctx.roots, old(ctx.locals), host)
    ensures ctx.locals == old(ctx.locals)
    decreases e, 0
  {
    hide Eval, EvalBool, Quantify, Members;
    var c := Evaluate(domain, ctx, host);
    PredicateOn(c, kind, variable, domain, body, bound, ctx.roots, ctx.locals, host);
    if c.Err? {
      return c;
    }
    var members := Members(c.value);
    if members.None? {
      return Err(TypeMismatch);
    }
    var items := members.value;
    if |items| > bound {
      return Err(BoundExceeded);
    }
    var saved := ctx.locals;
    var decided: Result<bool, EvalError> := Ok(kind.All?);
    ghost var whole := Quantify(kind, variable, items, body, ctx.roots, saved, host);
    var i := 0;
    assert items[0..] == items;
    NoMember(kind, variable, items, body, ctx.roots, saved, host);
    while i < |items|
      invariant 0 <= i <= |items|
      // Earlier rounds leave at most the variable's own binding behind.
      invariant ctx.locals == saved || (i > 0 && ctx.locals == saved[variable := items[i - 1]])
      invariant whole == Quantify(kind, variable, items[i..], body, ctx.roots, saved, host)
      invariant decided == Ok(kind.All?)
    {
      assert ctx.locals[variable := items[i]] == saved[variable := items[i]];
      OneMember(kind, variable, items, i, body, ctx.roots, saved, host);
      ctx.locals := ctx.locals[variable := items[i]];
      decided := EvaluateBool(body, ctx, host);
      if decided != Ok(kind.All?) {
        break;
      }
      i := i + 1;
    }
    ctx.locals := saved;
    r := if decided.Err? then Err(decided.error) else Ok(VBool(decided.value));
  }
}
