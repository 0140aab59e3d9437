/** What an expression means: evaluation in an environment that is passed along and never changed. */
module ExprEval {
  import Sorting
  import opened Wrappers
  import opened ExprAst

  datatype EvalError = TypeMismatch | BadPath | BoundExceeded | CallFailed | UnknownFunction | ZeroDivision

  type Outcome = Result<Value, EvalError>

  type Entries = seq<(string, Value)>

  type Env = map<string, Value>

  datatype Roots = Roots(state: Entries, actor: Entries, payload: Entries, context: Entries)

  // Operations of the host language on values that the model does not spell out.
  datatype Host = Host(
    attribute: (Value, string) -> Option<Value>,
    text: Value -> string,
    parseInt: string -> Option<int>,
    parseFloat: string -> Option<real>,
    lower: string -> string,
    upper: string -> string)

  // ----- values

  predicate Truthy(v: Value) {
    match v
    case VNone => false
    case VBool(b) => b
    case VInt(i) => i != 0
    case VFloat(r) => r != 0.0
    case VStr(s) => s != []
    case VList(items) => items != []
    case VDict(entries) => entries != []
  }

  predicate IsNumber(v: Value) { v.VInt? || v.VFloat? }

  function AsReal(v: Value): real
    requires IsNumber(v)
  {
    if v.VInt? then v.i as real else v.r
  }

  function Lookup(entries: Entries, key: string): Option<Value> {
    if entries == [] then None
    else if entries[0].0 == key then Some(entries[0].1)
    else Lookup(entries[1..], key)
  }

  function Values(entries: Entries): seq<Value> {
    if entries == [] then [] else [entries[0].1] + Values(entries[1..])
  }

  function Keys(entries: Entries): seq<Value> {
    if entries == [] then [] else [VStr(entries[0].0)] + Keys(entries[1..])
  }

  // Python's ==: booleans are the integers 0 and 1, dicts compare without order.
  predicate Same(a: Value, b: Value)
    decreases a, 1, 0
  {
    match a
    case VNone => b.VNone?
    case VBool(x) => SameNumber(if x then 1.0 else 0.0, b)
    case VInt(i) => SameNumber(i as real, b)
    case VFloat(r) => SameNumber(r, b)
    case VStr(s) => b == VStr(s)
    case VList(items) => b.VList? && SameItems(items, b.items)
    case VDict(entries) => b.VDict? && |entries| == |b.entries| && SameEntries(a, entries, b.entries)
  }

  predicate SameNumber(x: real, b: Value) {
    match b
    case VBool(y) => x == if y then 1.0 else 0.0
    case VInt(i) => x == i as real
    case VFloat(r) => x == r
    case _ => false
  }

  predicate SameItems(a: seq<Value>, b: seq<Value>)
    decreases a, 0, 0
  {
    |a| == |b| && (a == [] || (Same(a[0], b[0]) && SameItems(a[1..], b[1..])))
  }

  predicate SameEntries(owner: Value, a: Entries, b: Entries)
    requires forall x :: x in a ==> x.1 < owner
    decreases owner, 0, |a|
  {
    if a == [] then true
    else
      var other := Lookup(b, a[0].0);
      other.Some? && Same(a[0].1, other.value) && SameEntries(owner, a[1..], b)
  }

  predicate OccursAt(needle: string, text: string, i: nat) {
    i + |needle| <= |text| && text[i..i + |needle|] == needle
  }

  predicate OccursIn(needle: string, text: string) {
    exists i: nat :: i <= |text| && OccursAt(needle, text, i)
  }

  function Contains(collection: Value, item: Value): Result<bool, EvalError> {
    match collection
    case VDict(entries) =>
      if item.VList? || item.VDict? then Err(TypeMismatch)
      else Ok(item.VStr? && Lookup(entries, item.s).Some?)
    case VList(items) => Ok(exists x :: x in items && Same(x, item))
    case VStr(s) => if item.VStr? then Ok(OccursIn(item.s, s)) else Err(TypeMismatch)
    case _ => Err(TypeMismatch)
  }

  // ----- arithmetic

  function FloorDivide(a: int, b: int): int
    requires b != 0
  {
    if b > 0 then a / b else -a / -b
  }

  function FloorQuotient(x: real, y: real): real
    requires y != 0.0
  {
    (x / y).Floor as real
  }

  function FloorRemainder(x: real, y: real): real
    requires y != 0.0
  {
    x - y * FloorQuotient(x, y)
  }

  function Arithmetic(op: BinOp, left: Value, right: Value): Outcome
    requires IsNumber(left) && IsNumber(right) && op in {Add, Sub, Mul, Div, FloorDiv, Mod}
  {
    var x, y := AsReal(left), AsReal(right);
    if op in {Div, FloorDiv, Mod} && y == 0.0 then Err(ZeroDivision)
    else if op.Div? then Ok(VFloat(x / y))
    else if left.VInt? && right.VInt? then
      var a, b := left.i, right.i;
      Ok(VInt(
        if op.Add? then a + b
        else if op.Sub? then a - b
        else if op.Mul? then a * b
        else if op.FloorDiv? then FloorDivide(a, b)
        else a - b * FloorDivide(a, b)))
    else
      Ok(VFloat(
        if op.Add? then x + y
        else if op.Sub? then x - y
        else if op.Mul? then x * y
        else if op.FloorDiv? then FloorQuotient(x, y)
        else FloorRemainder(x, y)))
  }

  function Compare(op: BinOp, left: Value, right: Value): bool
    requires IsNumber(left) && IsNumber(right) && op in {Lt, Le, Gt, Ge}
  {
    var x, y := AsReal(left), AsReal(right);
    match op
    case Lt => x < y
    case Le => x <= y
    case Gt => x > y
    case _ => x >= y
  }

  // A strict binary operator on two values.
  function Apply(op: BinOp, left: Value, right: Value): Outcome
    requires !op.And? && !op.Or?
  {
    if op.Eq? then Ok(VBool(Same(left, right)))
    else if op.Ne? then Ok(VBool(!Same(left, right)))
    else if op in {Lt, Le, Gt, Ge} then
      if IsNumber(left) && IsNumber(right) then Ok(VBool(Compare(op, left, right))) else Err(TypeMismatch)
    else if op.Add? && left.VStr? && right.VStr? then Ok(VStr(left.s + right.s))
    else if !IsNumber(left) || !IsNumber(right) then Err(TypeMismatch)
    else Arithmetic(op, left, right)
  }

  // ----- calls

  function Truncate(r: real): int {
    if r >= 0.0 then r.Floor else -((-r).Floor)
  }

  function Elements(v: Value): Option<seq<Value>> {
    match v
    case VList(items) => Some(items)
    case VDict(entries) => Some(Keys(entries))
    case VStr(s) => Some(seq(|s|, i requires 0 <= i < |s| => VStr([s[i]])))
    case _ => None
  }

  // Python's <: numbers with booleans, strings by code point, lists item by item; None where it raises.
  function Less(a: Value, b: Value): Option<bool>
    decreases a, 1
  {
    match (a, b)
    case (VStr(s), VStr(t)) => Some(s != t && Sorting.StringLeq(s, t))
    case (VList(xs), VList(ys)) => LessItems(xs, ys)
    case _ => if Magnitude(a).Some? && Magnitude(b).Some? then Some(Magnitude(a).value < Magnitude(b).value) else None
  }

  function LessItems(xs: seq<Value>, ys: seq<Value>): Option<bool>
    decreases xs, 0
  {
    if xs == [] || ys == [] then Some(|xs| < |ys|)
    else if Same(xs[0], ys[0]) then LessItems(xs[1..], ys[1..])
    else Less(xs[0], ys[0])
  }

  function Magnitude(v: Value): Option<real> {
    match v
    case VBool(b) => Some(if b then 1.0 else 0.0)
    case VInt(i) => Some(i as real)
    case VFloat(r) => Some(r)
    case _ => None
  }

  // min and max: the first of the smallest or largest; None on an empty collection or values that do not compare.
  function Extreme(largest: bool, vs: seq<Value>): Option<Value> {
    if vs == [] then None
    else if |vs| == 1 then Some(vs[0])
    else
      var best, x := Extreme(largest, vs[..|vs| - 1]), vs[|vs| - 1];
      if best.None? then None
      else
        var better := if largest then Less(best.value, x) else Less(x, best.value);
        if better.None? then None else if better.value then Some(x) else best
  }

  // Several arguments are compared themselves; a single one is a collection.
  function Choices(args: seq<Value>): Option<seq<Value>>
    requires args != []
  {
    if |args| > 1 then Some(args) else Elements(args[0])
  }

  function Chosen(largest: bool, args: seq<Value>): Outcome
    requires args != []
  {
    var vs := Choices(args);
    if vs.None? || Extreme(largest, vs.value).None? then Err(CallFailed) else Ok(Extreme(largest, vs.value).value)
  }

  const ALLOWLISTED: set<string> :=
    {"len", "abs", "min", "max", "str", "bool", "int", "float", "keys", "values", "lower", "upper"}

  function CallBuiltin(name: string, args: seq<Value>, host: Host): Outcome
    requires name in ALLOWLISTED
  {
    if args == [] then Err(CallFailed)
    else
      var a := args[0];
      if name == "len" then
        match a
        case VStr(s) => Ok(VInt(|s|))
        case VList(items) => Ok(VInt(|items|))
        case VDict(entries) => Ok(VInt(|entries|))
        case _ => Err(CallFailed)
      else if name == "abs" then
        match a
        case VBool(b) => Ok(VInt(if b then 1 else 0))
        case VInt(i) => Ok(VInt(if i >= 0 then i else -i))
        case VFloat(r) => Ok(VFloat(if r >= 0.0 then r else -r))
        case _ => Err(CallFailed)
      else if name == "min" then Chosen(false, args)
      else if name == "max" then Chosen(true, args)
      else if name == "str" then Ok(VStr(host.text(a)))
      else if name == "bool" then Ok(VBool(Truthy(a)))
      else if name == "int" then
        match a
        case VBool(b) => Ok(VInt(if b then 1 else 0))
        case VInt(i) => Ok(a)
        case VFloat(r) => Ok(VInt(Truncate(r)))
        case VStr(s) => if host.parseInt(s).Some? then Ok(VInt(host.parseInt(s).value)) else Err(CallFailed)
        case _ => Err(CallFailed)
      else if name == "float" then
        match a
        case VBool(b) => Ok(VFloat(if b then 1.0 else 0.0))
        case VInt(i) => Ok(VFloat(i as real))
        case VFloat(r) => Ok(a)
        case VStr(s) => if host.parseFloat(s).Some? then Ok(VFloat(host.parseFloat(s).value)) else Err(CallFailed)
        case _ => Err(CallFailed)
      else if name == "keys" then if a.VDict? then Ok(VList(Keys(a.entries))) else Err(CallFailed)
      else if name == "values" then if a.VDict? then Ok(VList(Values(a.entries))) else Err(CallFailed)
      else if name == "lower" then Ok(VStr(host.lower(host.text(a))))
      else Ok(VStr(host.upper(host.text(a))))
  }

  // ----- paths

  function Index(cur: Value, part: string, host: Host): Outcome {
    match cur
    case VNone => Ok(VNone)
    case VDict(entries) => Ok(if Lookup(entries, part).Some? then Lookup(entries, part).value else VNone)
    case _ => if host.attribute(cur, part).Some? then Ok(host.attribute(cur, part).value) else Err(BadPath)
  }

  function IndexAll(cur: Value, parts: seq<string>, host: Host): Outcome
    decreases |parts|
  {
    if parts == [] then Ok(cur)
    else
      var next := Index(cur, parts[0], host);
      if next.Err? then next else IndexAll(next.value, parts[1..], host)
  }

  function RootValue(root: PathRoot, roots: Roots): Value {
    match root
    case State => VDict(roots.state)
    case Actor => VDict(roots.actor)
    case Payload => VDict(roots.payload)
    case Context => VDict(roots.context)
  }

  // A bound name shadows every path whose first segment it is, whatever the root.
  function Resolve(root: PathRoot, parts: seq<string>, roots: Roots, env: Env, host: Host): Outcome {
    if parts != [] && parts[0] in env then IndexAll(env[parts[0]], parts[1..], host)
    else IndexAll(RootValue(root, roots), parts, host)
  }

  // ----- expressions

  function Eval(e: Expr, roots: Roots, env: Env, host: Host): Outcome
    decreases e, 1
  {
    match e
    case Literal(value) => Ok(value)
    case PathRef(root, parts) => Resolve(root, parts, roots, env, host)
    case Unary(uop, operand) =>
      var v := Eval(operand, roots, env, host);
      if v.Err? then v else ApplyUnary(uop, v.value)
    case Binary(op, left, right) =>
      if op.And? || op.Or? then
        var l := EvalBool(left, roots, env, host);
        if l.Err? then Err(l.error)
        else if l.value == op.Or? then Ok(VBool(l.value))
        else
          var r := EvalBool(right, roots, env, host);
          if r.Err? then Err(r.error) else Ok(VBool(r.value))
      else
        var l := Eval(left, roots, env, host);
        if l.Err? then l
        else
          var r := Eval(right, roots, env, host);
          if r.Err? then r else Apply(op, l.value, r.value)
    case Conditional(test, thenBranch, elseBranch) =>
      var t := EvalBool(test, roots, env, host);
      if t.Err? then Err(t.error)
      else if t.value then Eval(thenBranch, roots, env, host)
      else Eval(elseBranch, roots, env, host)
    case Membership(item, collection, inverted) =>
      var i := Eval(item, roots, env, host);
      if i.Err? then i
      else
        var c := Eval(collection, roots, env, host);
        if c.Err? then c
        else
          var found := Contains(c.value, i.value);
          if found.Err? then Err(found.error) else Ok(VBool(found.value != inverted))
    case Call(name, args) =>
      if name !in ALLOWLISTED then Err(UnknownFunction)
      else
        var vs := EvalAll(args, roots, env, host);
        if vs.Err? then Err(vs.error) else CallBuiltin(name, vs.value, host)
    case CollectionPred(kind, variable, domain, body, bound) =>
      var c := Eval(domain, roots, env, host);
      if c.Err? then c
      else
        var items := Members(c.value);
        if items.None? then Err(TypeMismatch)
        else if |items.value| > bound then Err(BoundExceeded)
        else
          var r := Quantify(kind, variable, items.value, body, roots, env, host);
          if r.Err? then Err(r.error) else Ok(VBool(r.value))
  }

  function ApplyUnary(uop: UnOp, v: Value): Outcome {
    match uop
    case NotOp => Ok(VBool(!Truthy(v)))
    case Neg => if v.VInt? then Ok(VInt(-v.i)) else if v.VFloat? then Ok(VFloat(-v.r)) else Err(TypeMismatch)
    case Pos => if IsNumber(v) then Ok(v) else Err(TypeMismatch)
  }

  // Every value of the model has a truth value, so only evaluation itself can fail.
  function EvalBool(e: Expr, roots: Roots, env: Env, host: Host): Result<bool, EvalError>
    decreases e, 2
  {
    var v := Eval(e, roots, env, host);
    if v.Err? then Err(v.error) else Ok(Truthy(v.value))
  }

  function EvalAll(args: seq<Expr>, roots: Roots, env: Env, host: Host): Result<seq<Value>, EvalError>
    decreases args, 0
  {
    if args == [] then Ok([])
    else
      var v := Eval(args[0], roots, env, host);
      if v.Err? then Err(v.error)
      else
        var vs := EvalAll(args[1..], roots, env, host);
        if vs.Err? then vs else Ok([v.value] + vs.value)
  }

  function Members(collection: Value): Option<seq<Value>> {
    match collection
    case VDict(entries) => Some(Values(entries))
    case VList(items) => Some(items)
    case _ => None
  }

  // Each member in turn, in the environment with the variable bound to it; stops at the first that decides.
  function Quantify(kind: Quantifier, variable: string, items: seq<Value>, body: Expr,
                    roots: Roots, env: Env, host: Host): Result<bool, EvalError>
    decreases body, 3, |items|
  {
    if items == [] then Ok(kind.All?)
    else
      var r := EvalBool(body, roots, env[variable := items[0]], host);
      if r.Err? then r
      else if r.value != kind.All? then r
      else Quantify(kind, variable, items[1..], body, roots, env, host)
  }

  // ----- scoping

  // Names an expression may look up in the environment.
  function FreeNames(e: Expr): set<string>
    decreases e
  {
    match e
    case Literal(_) => {}
    case PathRef(_, parts) => if parts == [] then {} else {parts[0]}
    case Unary(_, operand) => FreeNames(operand)
    case Binary(_, left, right) => FreeNames(left) + FreeNames(right)
    case Conditional(test, thenBranch, elseBranch) => FreeNames(test) + FreeNames(thenBranch) + FreeNames(elseBranch)
    case Membership(item, collection, _) => FreeNames(item) + FreeNames(collection)
    case Call(_, args) => AllFreeNames(args)
    case CollectionPred(_, variable, domain, body, _) => FreeNames(domain) + (FreeNames(body) - {variable})
  }

  function AllFreeNames(args: seq<Expr>): set<string>
    decreases args
  {
    if args == [] then {} else FreeNames(args[0]) + AllFreeNames(args[1..])
  }

  ghost predicate AgreeOn(names: set<string>, env: Env, env': Env) {
    forall n :: n in names ==> (n in env <==> n in env') && (n in env ==> env[n] == env'[n])
  }

  // An operator's value in two environments is the same when its operands' are.
  lemma BinarySame(op: BinOp, left: Expr, right: Expr, roots: Roots, env: Env, env': Env, host: Host)
    requires Eval(left, roots, env, host) == Eval(left, roots, env', host)
    requires Eval(right, roots, env, host) == Eval(right, roots, env', host)
    ensures Eval(Binary(op, left, right), roots, env, host) == Eval(Binary(op, left, right), roots, env', host)
  {
    hide Apply, Truthy;
  }

  lemma MembershipSame(item: Expr, collection: Expr, inverted: bool, roots: Roots, env: Env, env': Env, host: Host)
    requires Eval(item, roots, env, host) == Eval(item, roots, env', host)
    requires Eval(collection, roots, env, host) == Eval(collection, roots, env', host)
    ensures Eval(Membership(item, collection, inverted), roots, env, host)
         == Eval(Membership(item, collection, inverted), roots, env', host)
  {
    hide Contains;
  }

  lemma CollectionPredSame(kind: Quantifier, variable: string, domain: Expr, body: Expr, bound: int,
                           roots: Roots, env: Env, env': Env, host: Host)
    requires var c := Eval(domain, roots, env, host);
      && c == Eval(domain, roots, env', host)
      && (c.Ok? && Members(c.value).Some? ==>
            Quantify(kind, variable, Members(c.value).value, body, roots, env, host)
            == Quantify(kind, variable, Members(c.value).value, body, roots, env', host))
    ensures Eval(CollectionPred(kind, variable, domain, body, bound), roots, env, host)
         == Eval(CollectionPred(kind, variable, domain, body, bound), roots, env', host)
  {
    hide Members, Quantify;
  }

  lemma UnarySame(uop: UnOp, operand: Expr, roots: Roots, env: Env, env': Env, host: Host)
    requires Eval(operand, roots, env, host) == Eval(operand, roots, env', host)
    ensures Eval(Unary(uop, operand), roots, env, host) == Eval(Unary(uop, operand), roots, env', host)
  {
    hide ApplyUnary;
  }

  lemma ConditionalSame(test: Expr, thenBranch: Expr, elseBranch: Expr, roots: Roots, env: Env, env': Env, host: Host)
    requires Eval(test, roots, env, host) == Eval(test, roots, env', host)
    requires Eval(thenBranch, roots, env, host) == Eval(thenBranch, roots, env', host)
    requires Eval(elseBranch, roots, env, host) == Eval(elseBranch, roots, env', host)
    ensures Eval(Conditional(test, thenBranch, elseBranch), roots, env, host)
         == Eval(Conditional(test, thenBranch, elseBranch), roots, env', host)
  {
    hide Truthy;
  }

  lemma CallSame(name: string, args: seq<Expr>, roots: Roots, env: Env, env': Env, host: Host)
    requires EvalAll(args, roots, env, host) == EvalAll(args, roots, env', host)
    ensures Eval(Call(name, args), roots, env, host) == Eval(Call(name, args), roots, env', host)
  {
    hide CallBuiltin, EvalAll;
  }

  lemma LeafSame(e: Expr, roots: Roots, env: Env, env': Env, host: Host)
    requires (e.Literal? || e.PathRef?) && AgreeOn(FreeNames(e), env, env')
    ensures Eval(e, roots, env, host) == Eval(e, roots, env', host)
  {
    hide IndexAll, RootValue;
  }

  // Only the bindings of the free names matter.
  lemma {:induction false} Coincidence(e: Expr, roots: Roots, env: Env, env': Env, host: Host)
    requires AgreeOn(FreeNames(e), env, env')
    ensures Eval(e, roots, env, host) == Eval(e, roots, env', host)
    decreases e, 1
  {
    hide Eval, EvalAll, Members, Quantify;
    match e
    case Literal(_) =>
      LeafSame(e, roots, env, env', host);
    case PathRef(_, _) =>
      LeafSame(e, roots, env, env', host);
    case Unary(uop, operand) =>
      Coincidence(operand, roots, env, env', host);
      UnarySame(uop, operand, roots, env, env', host);
    case Binary(op, left, right) =>
      Coincidence(left, roots, env, env', host);
      Coincidence(right, roots, env, env', host);
      BinarySame(op, left, right, roots, env, env', host);
    case Conditional(test, thenBranch, elseBranch) =>
      Coincidence(test, roots, env, env', host);
      Coincidence(thenBranch, roots, env, env', host);
      Coincidence(elseBranch, roots, env, env', host);
      ConditionalSame(test, thenBranch, elseBranch, roots, env, env', host);
    case Membership(item, collection, inverted) =>
      Coincidence(item, roots, env, env', host);
      Coincidence(collection, roots, env, env', host);
      MembershipSame(item, collection, inverted, roots, env, env', host);
    case Call(name, args) =>
      CoincidenceAll(args, roots, env, env', host);
      CallSame(name, args, roots, env, env', host);
    case CollectionPred(kind, variable, domain, body, bound) =>
      Coincidence(domain, roots, env, env', host);
      var c := Eval(domain, roots, env, host);
      if c.Ok? && Members(c.value).Some? {
        CoincidenceQuantify(kind, variable, Members(c.value).value, body, roots, env, env', host);
      }
      CollectionPredSame(kind, variable, domain, body, bound, roots, env, env', host);
  }

  lemma {:induction false} CoincidenceAll(args: seq<Expr>, roots: Roots, env: Env, env': Env, host: Host)
    requires AgreeOn(AllFreeNames(args), env, env')
    ensures EvalAll(args, roots, env, host) == EvalAll(args, roots, env', host)
    decreases args, 0
  {
    if args != [] {
      Coincidence(args[0], roots, env, env', host);
      CoincidenceAll(args[1..], roots, env, env', host);
    }
  }

  lemma {:induction false} CoincidenceQuantify(kind: Quantifier, variable: string, items: seq<Value>, body: Expr,
                                               roots: Roots, env: Env, env': Env, host: Host)
    requires AgreeOn(FreeNames(body) - {variable}, env, env')
    ensures Quantify(kind, variable, items, body, roots, env, host) == Quantify(kind, variable, items, body, roots, env', host)
    decreases body, 3, |items|
  {
    if items != [] {
      Coincidence(body, roots, env[variable := items[0]], env'[variable := items[0]], host);
      CoincidenceQuantify(kind, variable, items[1..], body, roots, env, env', host);
    }
  }

  // An inner quantifier over the same variable hides the outer binding from its body.
  lemma InnermostBindingWins(kind: Quantifier, variable: string, domain: Expr, body: Expr, bound: int,
                             roots: Roots, env: Env, outer: Value, host: Host)
    requires variable !in FreeNames(domain)
    ensures Eval(CollectionPred(kind, variable, domain, body, bound), roots, env[variable := outer], host)
         == Eval(CollectionPred(kind, variable, domain, body, bound), roots, env, host)
  {
    Coincidence(CollectionPred(kind, variable, domain, body, bound), roots, env[variable := outer], env, host);
  }

  // A path through a bound name is the same under every root.
  lemma BindingShadowsEveryRoot(root: PathRoot, root': PathRoot, parts: seq<string>, roots: Roots, roots': Roots,
                                env: Env, host: Host)
    requires parts != [] && parts[0] in env
    ensures Eval(PathRef(root, parts), roots, env, host) == Eval(PathRef(root', parts), roots', env, host)
  {
  }

  // all and any are the bounded quantifiers, read left to right: the first failing or deciding member settles them.
  lemma {:induction false} QuantifyMeaning(kind: Quantifier, variable: string, items: seq<Value>, body: Expr,
                                           roots: Roots, env: Env, host: Host, n: nat)
    requires n <= |items|
    requires forall i :: 0 <= i < n ==> EvalBool(body, roots, env[variable := items[i]], host) == Ok(kind.All?)
    requires n < |items| ==> EvalBool(body, roots, env[variable := items[n]], host) != Ok(kind.All?)
    ensures Quantify(kind, variable, items, body, roots, env, host)
         == if n == |items| then Ok(kind.All?) else EvalBool(body, roots, env[variable := items[n]], host)
    decreases n
  {
    if n > 0 {
      assert forall i :: 0 <= i < n - 1 ==> items[1..][i] == items[i + 1];
      QuantifyMeaning(kind, variable, items[1..], body, roots, env, host, n - 1);
    }
  }
}
