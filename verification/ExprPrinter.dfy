/** A printer that brackets only where precedence demands it, and the trees that survive the parser. */
module ExprPrinter {
  import opened Text
  import opened ExprAst
  import opened ExprLexer

  // Grammar level of a node; a conditional or quantifier runs to the end of its phrase, so it sits lowest.
  function Level(e: Expr): nat {
    match e
    case Conditional(_, _, _) => 0
    case CollectionPred(_, _, _, _, _) => 0
    case Binary(Or, _, _) => 1
    case Binary(And, _, _) => 2
    case Unary(NotOp, _) => 3
    case Binary(Add, _, _) => 5
    case Binary(Sub, _, _) => 5
    case Binary(Mul, _, _) => 6
    case Binary(Div, _, _) => 6
    case Binary(FloorDiv, _, _) => 6
    case Binary(Mod, _, _) => 6
    case Binary(_, _, _) => 4
    case Membership(_, _, _) => 4
    case Unary(_, _) => 7
    case _ => 8
  }

  function OpToken(op: BinOp): Tok {
    match op
    case And => Kw(KAnd)
    case Or => Kw(KOr)
    case Eq => OpTok(EqEq)
    case Ne => OpTok(NotEq)
    case Lt => OpTok(Less)
    case Le => OpTok(LessEq)
    case Gt => OpTok(Greater)
    case Ge => OpTok(GreaterEq)
    case Add => OpTok(Plus)
    case Sub => OpTok(Minus)
    case Mul => OpTok(Star)
    case Div => OpTok(Slash)
    case FloorDiv => OpTok(SlashSlash)
    case Mod => OpTok(Percent)
  }

  // Levels at which the operands of a binary operator are read.
  function LeftLevel(op: BinOp): nat {
    match op
    case Or => 1
    case And => 2
    case Add => 5
    case Sub => 5
    case Mul => 6
    case Div => 6
    case FloorDiv => 6
    case Mod => 6
    case _ => 5
  }

  function RightLevel(op: BinOp): nat {
    match op
    case Or => 2
    case And => 3
    case Add => 6
    case Sub => 6
    case Mul => 7
    case Div => 7
    case FloorDiv => 7
    case Mod => 7
    case _ => 5
  }

  function LiteralToken(v: Value): Tok {
    match v
    case VNone => Kw(KNull)
    case VBool(b) => Kw(if b then KTrue else KFalse)
    case VInt(i) => Num(if i >= 0 then Decimal(i) else "")
    case VStr(s) => Str(s)
    case _ => Num("")
  }

  function RootText(root: PathRoot): string {
    match root
    case State => "state"
    case Actor => "actor"
    case Payload => "payload"
    case Context => "context"
  }

  function PathTokens(parts: seq<string>): seq<Tok> {
    if parts == [] then [] else [Punct('.'), Id(parts[0])] + PathTokens(parts[1..])
  }

  // In a place that reads the given level.
  function Print(e: Expr, level: nat): (ts: seq<Tok>)
    ensures ts != []
    decreases e, 1
  {
    if Level(e) < level then [Punct('(')] + Bare(e) + [Punct(')')] else Bare(e)
  }

  function Bare(e: Expr): (ts: seq<Tok>)
    ensures ts != []
    decreases e, 0
  {
    match e
    case Literal(value) => [LiteralToken(value)]
    case PathRef(root, parts) => [Id(RootText(root))] + PathTokens(parts)
    case Unary(NotOp, operand) => [Kw(KNot)] + Print(operand, 3)
    case Unary(Neg, operand) => [OpTok(Minus)] + Print(operand, 7)
    case Unary(Pos, operand) => [OpTok(Plus)] + Print(operand, 7)
    case Binary(op, left, right) => Print(left, LeftLevel(op)) + [OpToken(op)] + Print(right, RightLevel(op))
    case Membership(item, collection, _) => Print(item, 5) + [Kw(KIn)] + Print(collection, 5)
    case Conditional(test, thenBranch, elseBranch) =>
      [Kw(KIf)] + Print(test, 0) + [Kw(KThen)] + Print(thenBranch, 0) + [Kw(KElse)] + Print(elseBranch, 0)
    case CollectionPred(kind, variable, domain, body, _) =>
      [Kw(if kind.All? then KAll else KAny), Id(variable), Kw(KIn)] + Print(domain, 0) + [Punct(':')] + Print(body, 0)
    case Call(name, args) => [Id(name), Punct('(')] + PrintArgs(args) + [Punct(')')]
  }

  function PrintArgs(args: seq<Expr>): seq<Tok>
    decreases args, 2
  {
    if args == [] then []
    else Print(args[0], 0) + (if |args| == 1 then [] else [Punct(',')] + PrintArgs(args[1..]))
  }

  // ----- which trees the syntax can write at all

  predicate ValidName(name: string) {
    name != [] && IsWordStart(name[0]) && WordSpan(name) == |name| && KeywordFor(name).None?
  }

  predicate ValidLiteral(v: Value) {
    v.VNone? || v.VBool? || v.VStr? || (v.VInt? && v.i >= 0)
  }

  // Names that are names, literals that have a literal form, quantifiers with the default bound.
  predicate Writable(e: Expr) {
    match e
    case Literal(value) => ValidLiteral(value)
    case PathRef(_, parts) => forall p :: p in parts ==> ValidName(p)
    case Unary(_, operand) => Writable(operand)
    case Binary(_, left, right) => Writable(left) && Writable(right)
    case Membership(item, collection, inverted) => !inverted && Writable(item) && Writable(collection)
    case Conditional(test, thenBranch, elseBranch) => Writable(test) && Writable(thenBranch) && Writable(elseBranch)
    case CollectionPred(_, variable, domain, body, bound) =>
      ValidName(variable) && bound == DEFAULT_BOUND && Writable(domain) && Writable(body)
    case Call(name, args) => ValidName(name) && forall a :: a in args ==> Writable(a)
  }

  // ----- string literals the parser takes for syntax

  const NOT_STRING := Str("not")

  // No string literal spells "if" or "(", and none that spells "not" comes first where a negation may.
  predicate Clean(e: Expr, level: nat)
    decreases e, 1
  {
    CleanParts(e) && ((level <= 3 || Level(e) < level) && Level(e) >= 4 ==> Bare(e)[0] != NOT_STRING)
  }

  predicate CleanParts(e: Expr)
    decreases e, 0
  {
    match e
    case Literal(value) => value != VStr("if") && value != VStr("(")
    case PathRef(_, _) => true
    case Unary(NotOp, operand) => Clean(operand, 3)
    case Unary(_, operand) => Clean(operand, 7)
    case Binary(op, left, right) => Clean(left, LeftLevel(op)) && Clean(right, RightLevel(op))
    case Membership(item, collection, _) => Clean(item, 5) && Clean(collection, 5)
    case Conditional(test, thenBranch, elseBranch) => Clean(test, 0) && Clean(thenBranch, 0) && Clean(elseBranch, 0)
    case CollectionPred(_, _, domain, body, _) => Clean(domain, 0) && Clean(body, 0)
    case Call(_, args) => forall a :: a in args ==> Clean(a, 0)
  }
}
