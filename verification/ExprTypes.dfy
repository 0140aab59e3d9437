/** Coarse type inference, and how far evaluation bears it out. */
module ExprTypes {
  import opened Wrappers
  import opened ExprAst
  import opened ExprEval

  datatype ExprType = ANY | NULL | BOOLEAN | NUMBER | STRING | LIST | MAP

  function TypeOfValue(v: Value): ExprType {
    match v
    case VNone => NULL
    case VBool(_) => BOOLEAN
    case VInt(_) => NUMBER
    case VFloat(_) => NUMBER
    case VStr(_) => STRING
    case VList(_) => LIST
    case VDict(_) => MAP
  }

  function FunctionType(name: string): Option<ExprType> {
    if name !in ALLOWLISTED then None
    else if name in {"str", "lower", "upper"} then Some(STRING)
    else if name == "bool" then Some(BOOLEAN)
    else if name in {"keys", "values"} then Some(LIST)
    else Some(NUMBER)
  }

  // None where the source raises: a function outside the allow-list.
  function InferType(e: Expr): Option<ExprType> {
    match e
    case Literal(value) => Some(TypeOfValue(value))
    case PathRef(_, _) => Some(ANY)
    case Unary(NotOp, _) => Some(BOOLEAN)
    case Unary(_, _) => Some(NUMBER)
    case Binary(op, _, _) => Some(if op in {Add, Sub, Mul, Div, FloorDiv, Mod} then NUMBER else BOOLEAN)
    case Conditional(_, thenBranch, elseBranch) =>
      var t, f := InferType(thenBranch), InferType(elseBranch);
      if t.None? || f.None? then None else if t == f then t else Some(ANY)
    case Membership(_, _, _) => Some(BOOLEAN)
    case Call(name, _) => FunctionType(name)
    case CollectionPred(_, _, _, _, _) => Some(BOOLEAN)
  }

  // The node that decides the value, looking through conditionals, is no `+`, `min` or `max`.
  predicate SurelyNumeric(e: Expr) {
    match e
    case Binary(op, _, _) => !op.Add?
    case Call(name, _) => name != "min" && name != "max"
    case Conditional(_, thenBranch, elseBranch) => SurelyNumeric(thenBranch) && SurelyNumeric(elseBranch)
    case _ => true
  }

  lemma BuiltinType(name: string, args: seq<Value>, host: Host)
    requires name in ALLOWLISTED && name != "min" && name != "max" && CallBuiltin(name, args, host).Ok?
    ensures FunctionType(name) == Some(TypeOfValue(CallBuiltin(name, args, host).value))
  {
  }

  // A definite type is the type of every value the expression can take.
  lemma {:induction false} InferenceSound(e: Expr, roots: Roots, env: Env, host: Host)
    requires Eval(e, roots, env, host).Ok? && InferType(e).Some? && InferType(e).value != ANY
    requires InferType(e).value == NUMBER ==> SurelyNumeric(e)
    ensures TypeOfValue(Eval(e, roots, env, host).value) == InferType(e).value
    decreases e
  {
    hide CallBuiltin, Contains, Quantify, Resolve, EvalAll;
    match e
    case Binary(op, left, right) =>
      if op in {Add, Sub, Mul, Div, FloorDiv, Mod} {
      }
    case Conditional(test, thenBranch, elseBranch) =>
      if EvalBool(test, roots, env, host).value {
        InferenceSound(thenBranch, roots, env, host);
      } else {
        InferenceSound(elseBranch, roots, env, host);
      }
    case Call(name, args) =>
      BuiltinType(name, EvalAll(args, roots, env, host).value, host);
    case _ =>
  }

  // What is inferred of a path, or of branches that differ.
  predicate Undetermined(e: Expr) {
    e.PathRef?
    || (e.Conditional? && (InferType(e.thenBranch) != InferType(e.elseBranch) || Undetermined(e.thenBranch)))
  }

  predicate CallsKnown(e: Expr) {
    match e
    case Call(name, _) => name in ALLOWLISTED
    case Conditional(_, thenBranch, elseBranch) => CallsKnown(thenBranch) && CallsKnown(elseBranch)
    case _ => true
  }

  // Nothing else is left open, and inference fails on unknown functions alone; a conditional whose branches have one type
  // has it too.
  lemma {:induction false} InferenceDefinite(e: Expr)
    ensures InferType(e).None? <==> !CallsKnown(e)
    ensures CallsKnown(e) ==> (InferType(e) == Some(ANY) <==> Undetermined(e))
    ensures e.Conditional? && InferType(e.thenBranch) == InferType(e.elseBranch) ==> InferType(e) == InferType(e.thenBranch)
    decreases e
  {
    if e.Conditional? {
      InferenceDefinite(e.thenBranch);
      InferenceDefinite(e.elseBranch);
    }
  }

  // A sum is inferred to be a number; it is one exactly when its left operand is.
  lemma SumTypeExactly(left: Expr, right: Expr, roots: Roots, env: Env, host: Host)
    requires Eval(Binary(Add, left, right), roots, env, host).Ok?
    ensures InferType(Binary(Add, left, right)) == Some(NUMBER) && Eval(left, roots, env, host).Ok?
    ensures TypeOfValue(Eval(Binary(Add, left, right), roots, env, host).value) == NUMBER
        <==> IsNumber(Eval(left, roots, env, host).value)
  {
    var l, r := Eval(left, roots, env, host), Eval(right, roots, env, host);
  }

  lemma ConcatenationIsNoNumber(roots: Roots, env: Env, host: Host)
    ensures var e := Binary(Add, Literal(VStr("a")), Literal(VStr("b")));
      InferType(e) == Some(NUMBER) && Eval(e, roots, env, host) == Ok(VStr("ab"))
  {
    assert "a" + "b" == "ab";
  }

  // ----- min and max

  lemma LessSameSort(a: Value, b: Value)
    requires Less(a, b).Some?
    ensures Magnitude(a).Some? == Magnitude(b).Some? && a.VStr? == b.VStr? && a.VList? == b.VList?
  {
    hide LessItems;
  }

  // The extreme is one of the values, and all of them are of its sort: strings, lists, or numbers and booleans.
  lemma {:induction false} ExtremeIsOne(largest: bool, vs: seq<Value>)
    requires Extreme(largest, vs).Some?
    ensures var best := Extreme(largest, vs).value;
      && best in vs
      && forall v :: v in vs ==> Magnitude(v).Some? == Magnitude(best).Some? && v.VStr? == best.VStr? && v.VList? == best.VList?
  {
    hide Less, Magnitude;
    if |vs| > 1 {
      var init, x := vs[..|vs| - 1], vs[|vs| - 1];
      ExtremeIsOne(largest, init);
      assert forall v :: v in vs <==> v in init || v == x;
      var best := Extreme(largest, init).value;
      if largest {
        LessSameSort(best, x);
      } else {
        LessSameSort(x, best);
      }
    }
  }

  // Among numbers and booleans, which count as 0 and 1: strictly beyond the other.
  predicate Beats(largest: bool, x: Value, y: Value)
    requires Magnitude(x).Some? && Magnitude(y).Some?
  {
    if largest then Magnitude(x).value > Magnitude(y).value else Magnitude(x).value < Magnitude(y).value
  }

  predicate AllMagnitudes(vs: seq<Value>) { forall v :: v in vs ==> Magnitude(v).Some? }

  // The value at i is beyond all before it, and none after it is beyond it.
  ghost predicate Leads(largest: bool, vs: seq<Value>, i: int)
    requires AllMagnitudes(vs)
  {
    && 0 <= i < |vs|
    && (forall j :: 0 <= j < i ==> Beats(largest, vs[i], vs[j]))
    && (forall j :: i < j < |vs| ==> !Beats(largest, vs[j], vs[i]))
  }

  lemma {:induction false} ExtremeLeads(largest: bool, vs: seq<Value>) returns (i: nat)
    requires vs != [] && AllMagnitudes(vs)
    ensures Leads(largest, vs, i) && Extreme(largest, vs) == Some(vs[i])
  {
    if |vs| == 1 {
      i := 0;
    } else {
      var init, x := vs[..|vs| - 1], vs[|vs| - 1];
      i := ExtremeLeads(largest, init);
      assert Less(x, vs[i]) == Some(Magnitude(x).value < Magnitude(vs[i]).value);
      assert Less(vs[i], x) == Some(Magnitude(vs[i]).value < Magnitude(x).value);
      assert forall j :: 0 <= j < |init| ==> init[j] == vs[j];
      hide Less, Magnitude;
      if Beats(largest, x, vs[i]) {
        forall j | 0 <= j < |init|
          ensures Beats(largest, x, vs[j])
        {
          assert j < i ==> Beats(largest, init[i], init[j]);
          assert i < j ==> !Beats(largest, init[j], init[i]);
        }
        i := |init|;
      }
    }
  }

  lemma AgainstLeader(largest: bool, vs: seq<Value>, lead: int, j: int)
    requires AllMagnitudes(vs) && Leads(largest, vs, lead) && 0 <= j < |vs|
    ensures j < lead ==> Beats(largest, vs[lead], vs[j])
    ensures lead < j ==> !Beats(largest, vs[j], vs[lead])
  {
  }

  lemma LeaderIsUnique(largest: bool, vs: seq<Value>, i: int, k: int)
    requires AllMagnitudes(vs) && Leads(largest, vs, i) && Leads(largest, vs, k)
    ensures i == k
  {
    hide Magnitude, Beats;
    AgainstLeader(largest, vs, i, k);
    AgainstLeader(largest, vs, k, i);
  }

  // Numbers and booleans are compared, and the one that leads is a number.
  ghost predicate NumberLeads(largest: bool, vs: seq<Value>) {
    AllMagnitudes(vs) && exists i :: Leads(largest, vs, i) && !vs[i].VBool?
  }

  lemma MagnitudeKinds(v: Value)
    ensures Magnitude(v).Some? <==> IsNumber(v) || v.VBool?
  {
  }

  // The extreme is a number exactly when a number leads.
  lemma ExtremeIsNumberExactly(largest: bool, vs: seq<Value>)
    requires Extreme(largest, vs).Some?
    ensures IsNumber(Extreme(largest, vs).value) <==> NumberLeads(largest, vs)
  {
    var best := Extreme(largest, vs).value;
    ExtremeIsOne(largest, vs);
    MagnitudeKinds(best);
    hide Magnitude, Extreme, Leads;
    if AllMagnitudes(vs) {
      var i := ExtremeLeads(largest, vs);
      if NumberLeads(largest, vs) {
        var k :| Leads(largest, vs, k) && !vs[k].VBool?;
        LeaderIsUnique(largest, vs, i, k);
      }
    }
  }

  // A minimum or maximum is inferred to be a number. It is one of the values compared, and it is a number exactly when
  // these are numbers and booleans and a number leads them; where none is a boolean, when the first is a number.
  lemma ExtremeTypeExactly(name: string, args: seq<Expr>, roots: Roots, env: Env, host: Host)
    requires name in {"min", "max"} && Eval(Call(name, args), roots, env, host).Ok?
    ensures InferType(Call(name, args)) == Some(NUMBER)
    ensures EvalAll(args, roots, env, host).Ok? && EvalAll(args, roots, env, host).value != []
    ensures Choices(EvalAll(args, roots, env, host).value).Some?
    ensures var vs, v := Choices(EvalAll(args, roots, env, host).value).value, Eval(Call(name, args), roots, env, host).value;
      && v in vs
      && (TypeOfValue(v) == NUMBER <==> NumberLeads(name == "max", vs))
      && ((forall x :: x in vs ==> !x.VBool?) ==> (TypeOfValue(v) == NUMBER <==> IsNumber(vs[0])))
      && (TypeOfValue(v) == NUMBER ==> forall x :: x in vs ==> IsNumber(x) || x.VBool?)
  {
    var values := EvalAll(args, roots, env, host).value;
    ChosenIsOne(name == "max", values);
    hide EvalAll, Extreme, Elements, Choices, NumberLeads;
  }

  lemma ChosenIsOne(largest: bool, args: seq<Value>)
    requires args != [] && Chosen(largest, args).Ok?
    ensures Choices(args).Some? && Chosen(largest, args).value in Choices(args).value
    ensures var vs, v := Choices(args).value, Chosen(largest, args).value;
      && (IsNumber(v) <==> NumberLeads(largest, vs))
      && (IsNumber(v) || v.VBool? <==> IsNumber(vs[0]) || vs[0].VBool?)
      && (IsNumber(v) ==> forall x :: x in vs ==> IsNumber(x) || x.VBool?)
  {
    var vs := Choices(args).value;
    ExtremeIsOne(largest, vs);
    ExtremeIsNumberExactly(largest, vs);
    assert vs[0] in vs;
    forall x: Value
      ensures Magnitude(x).Some? <==> IsNumber(x) || x.VBool?
    {
      MagnitudeKinds(x);
    }
    hide Extreme, Choices, Magnitude, NumberLeads;
  }

  // The least of two strings, and a boolean larger than a number, are inferred to be numbers and are none.
  lemma ExtremesThatAreNoNumbers(roots: Roots, env: Env, host: Host)
    ensures var words, mixed := Call("min", [Literal(VStr("b")), Literal(VStr("a"))]),
                                Call("max", [Literal(VInt(0)), Literal(VBool(true))]);
      && InferType(words) == Some(NUMBER) && Eval(words, roots, env, host) == Ok(VStr("a"))
      && InferType(mixed) == Some(NUMBER) && Eval(mixed, roots, env, host) == Ok(VBool(true))
  {
    TwoLiterals("min", VStr("b"), VStr("a"), roots, env, host);
    TwoLiterals("max", VInt(0), VBool(true), roots, env, host);
    assert Less(VStr("a"), VStr("b")) == Some(true);
    assert Less(VInt(0), VBool(true)) == Some(true);
  }

  lemma TwoLiterals(name: string, a: Value, b: Value, roots: Roots, env: Env, host: Host)
    requires name in {"min", "max"}
    ensures Eval(Call(name, [Literal(a), Literal(b)]), roots, env, host) == Chosen(name == "max", [a, b])
    ensures Extreme(name == "max", [a, b])
         == var better := if name == "max" then Less(a, b) else Less(b, a);
            if better.None? then None else Some(if better.value then b else a)
  {
    assert [Literal(a), Literal(b)][1..] == [Literal(b)] && [Literal(b)][1..] == [];
    assert EvalAll([], roots, env, host) == Ok([]);
    assert [b] + [] == [b] && [a] + [b] == [a, b];
    assert EvalAll([Literal(b)], roots, env, host) == Ok([b]);
    assert EvalAll([Literal(a), Literal(b)], roots, env, host) == Ok([a, b]);
    assert [a, b][..1] == [a];
    hide Less;
  }
}
