/** Laws of evaluation: rewritings that keep the value or the error of an expression. */
module ExprLaws {
  import opened Wrappers
  import opened ExprAst
  import opened ExprEval

  function Not(e: Expr): Expr { Unary(NotOp, e) }

  function Both(a: Expr, b: Expr): Expr { Binary(And, a, b) }

  function Either(a: Expr, b: Expr): Expr { Binary(Or, a, b) }

  lemma NotNegates(e: Expr, roots: Roots, env: Env, host: Host)
    ensures var r := EvalBool(e, roots, env, host);
      EvalBool(Not(e), roots, env, host) == if r.Err? then r else Ok(!r.value)
  {
  }

  // Pushing a negation inwards: what is evaluated, in which order and what fails, stays the same.
  lemma DeMorgan(a: Expr, b: Expr, roots: Roots, env: Env, host: Host)
    ensures Eval(Not(Both(a, b)), roots, env, host) == Eval(Either(Not(a), Not(b)), roots, env, host)
    ensures Eval(Not(Either(a, b)), roots, env, host) == Eval(Both(Not(a), Not(b)), roots, env, host)
  {
    NotNegates(a, roots, env, host);
    NotNegates(b, roots, env, host);
  }

  function Dual(kind: Quantifier): Quantifier { if kind.All? then Any else All }

  lemma {:induction false} QuantifyDual(kind: Quantifier, variable: string, items: seq<Value>, body: Expr,
                                        roots: Roots, env: Env, host: Host)
    ensures var r := Quantify(kind, variable, items, body, roots, env, host);
      Quantify(Dual(kind), variable, items, Not(body), roots, env, host) == if r.Err? then r else Ok(!r.value)
    decreases |items|
  {
    if items != [] {
      NotNegates(body, roots, env[variable := items[0]], host);
      QuantifyDual(kind, variable, items[1..], body, roots, env, host);
    }
  }

  // `not all` is `any not`, and `not any` is `all not`, errors and bounds included.
  lemma QuantifierDuality(kind: Quantifier, variable: string, domain: Expr, body: Expr, bound: int,
                          roots: Roots, env: Env, host: Host)
    ensures Eval(Not(CollectionPred(kind, variable, domain, body, bound)), roots, env, host)
         == Eval(CollectionPred(Dual(kind), variable, domain, Not(body), bound), roots, env, host)
  {
    var c := Eval(domain, roots, env, host);
    if c.Ok? && Members(c.value).Some? && |Members(c.value).value| <= bound {
      QuantifyDual(kind, variable, Members(c.value).value, body, roots, env, host);
    }
  }

  function Complement(op: BinOp): BinOp
    requires op in {Eq, Ne, Lt, Le, Gt, Ge}
  {
    match op
    case Eq => Ne
    case Ne => Eq
    case Lt => Ge
    case Le => Gt
    case Gt => Le
    case _ => Lt
  }

  lemma ComparisonComplement(op: BinOp, a: Expr, b: Expr, roots: Roots, env: Env, host: Host)
    requires op in {Eq, Ne, Lt, Le, Gt, Ge}
    ensures Eval(Not(Binary(op, a, b)), roots, env, host) == Eval(Binary(Complement(op), a, b), roots, env, host)
  {
    var l, r := Eval(a, roots, env, host), Eval(b, roots, env, host);
    if l.Ok? && r.Ok? {
      ApplyComplement(op, l.value, r.value);
    }
  }

  lemma ApplyComplement(op: BinOp, left: Value, right: Value)
    requires op in {Eq, Ne, Lt, Le, Gt, Ge}
    ensures var x, y := Apply(op, left, right), Apply(Complement(op), left, right);
      if x.Err? then y == x else y.Ok? && y.value == VBool(!Truthy(x.value))
  {
    hide Same;
  }

  lemma InvertedIsNegated(item: Expr, collection: Expr, roots: Roots, env: Env, host: Host)
    ensures Eval(Membership(item, collection, true), roots, env, host)
         == Eval(Not(Membership(item, collection, false)), roots, env, host)
  {
  }

  // Integer `//` and `%` divide with the remainder on the divisor's side of zero.
  lemma FloorDivisionLaw(a: int, b: int)
    requires b != 0
    ensures var q, m := Apply(FloorDiv, VInt(a), VInt(b)), Apply(Mod, VInt(a), VInt(b));
      && q.Ok? && q.value.VInt? && m.Ok? && m.value.VInt?
      && a == b * q.value.i + m.value.i
      && (if b > 0 then 0 <= m.value.i < b else b < m.value.i <= 0)
  {
    var q := FloorDivide(a, b);
    if b > 0 {
      assert a == b * q + a % b;
    } else {
      assert -a == -b * q + -a % -b;
      NegatedProduct(b, q);
    }
  }

  lemma NegatedProduct(b: int, q: int)
    ensures -b * q == -(b * q)
  {
  }
}
