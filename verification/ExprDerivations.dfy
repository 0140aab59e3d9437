/** The grammar as a relation between tokens and trees, and the parser's soundness: it accepts nothing else. */
module ExprDerivations {
  import opened Wrappers
  import opened ExprAst
  import opened ExprLexer
  import opened ExprGrammar

  // ----- the grammar, level by level

  // The token that writes a strict operator.
  function Sign(op: BinOp): Tok
    requires !op.And? && !op.Or?
  {
    match op
    case Eq => OpTok(EqEq)
    case Ne => OpTok(NotEq)
    case Lt => OpTok(Less)
    case Le => OpTok(LessEq)
    case Gt => OpTok(Greater)
    case Ge => OpTok(GreaterEq)
    case Add => OpTok(Plus)
    case Sub => OpTok(Minus)
    case Mul => OpTok(Star)
    case Div => OpTok(Slash)
    case FloorDiv => OpTok(SlashSlash)
    case Mod => OpTok(Percent)
  }

  predicate Joins(t: Tok, op: BinOp) {
    match op
    case Or => IsKw(t, KOr)
    case And => IsKw(t, KAnd)
    case _ => t == Sign(op)
  }

  // The level an operator belongs to, and those of its operands: connectives, sums and products lean to the left,
  // comparisons do not chain.
  function OwnLevel(op: BinOp): nat {
    match op
    case Or => 1
    case And => 2
    case Add => 5
    case Sub => 5
    case Mul => 6
    case Div => 6
    case FloorDiv => 6
    case Mod => 6
    case _ => 4
  }

  function FirstLevel(op: BinOp): nat { if OwnLevel(op) == 4 then 5 else OwnLevel(op) }

  // The tokens spell the tree at this level: 1 or, 2 and, 3 not, 4 comparison, 5 sum, 6 product, 7 sign, 8 primary.
  ghost predicate Spells(level: nat, ts: seq<Tok>, e: Expr)
    decreases |ts|, if level < 8 then 10 - level else 2
  {
    if level >= 8 then SpellsPrimary(ts, e)
    else
      || Spells(level + 1, ts, e)
      || (level == 3 && |ts| > 1 && e.Unary? && e.uop.NotOp? && IsKw(ts[0], KNot) && Spells(3, ts[1..], e.operand))
      || (level == 7 && |ts| > 1 && e.Unary? && e.uop.Neg? && ts[0] == OpTok(Minus) && Spells(7, ts[1..], e.operand))
      || (level == 7 && |ts| > 1 && e.Unary? && e.uop.Pos? && ts[0] == OpTok(Plus) && Spells(7, ts[1..], e.operand))
      || (e.Binary? && OwnLevel(e.op) == level && exists i :: SplitsBinary(ts, i, e))
      || (level == 4 && e.Membership? && !e.inverted && exists i :: SplitsMembership(ts, i, e))
  }

  ghost predicate SplitsBinary(ts: seq<Tok>, i: nat, e: Expr)
    requires e.Binary?
    decreases |ts|, 0
  {
    0 < i < |ts| && Joins(ts[i], e.op)
    && Spells(FirstLevel(e.op), ts[..i], e.left) && Spells(OwnLevel(e.op) + 1, ts[i + 1..], e.right)
  }

  // `x in c`, or `c contains x`.
  ghost predicate SplitsMembership(ts: seq<Tok>, i: nat, e: Expr)
    requires e.Membership?
    decreases |ts|, 0
  {
    0 < i < |ts|
    && ((IsKw(ts[i], KIn) && Spells(5, ts[..i], e.item) && Spells(5, ts[i + 1..], e.collection))
        || (IsKw(ts[i], KContains) && Spells(5, ts[..i], e.collection) && Spells(5, ts[i + 1..], e.item)))
  }

  ghost predicate SpellsPrimary(ts: seq<Tok>, e: Expr)
    decreases |ts|, 1
  {
    || (|ts| > 2 && IsPunct(ts[0], '(') && IsPunct(ts[|ts| - 1], ')') && Spells(1, ts[1..|ts| - 1], e))
    || match e
       case Literal(value) => |ts| == 1 && Denotes(ts[0], value)
       case PathRef(root, parts) => SpellsPath(ts, root, parts)
       case Conditional(_, _, _) => exists i, j :: SplitsConditional(ts, i, j, e)
       case CollectionPred(_, _, _, _, _) => exists i :: SplitsQuantifier(ts, i, e)
       case Call(name, args) =>
         |ts| > 2 && ts[0] == Id(name) && IsPunct(ts[1], '(') && IsPunct(ts[|ts| - 1], ')')
         && if |ts| == 3 then args == [] else SpellsArgs(ts[2..|ts| - 1], args)
       case _ => false
  }

  // The literal tokens.
  predicate Denotes(t: Tok, v: Value) {
    match v
    case VNone => t == Kw(KNull) || t == Kw(KNone)
    case VBool(b) => t == Kw(if b then KTrue else KFalse)
    case VStr(s) => t == Str(s)
    case VInt(_) => t.Num? && NumberValue(t.raw) == Some(v)
    case VFloat(_) => t.Num? && NumberValue(t.raw) == Some(v)
    case _ => false
  }

  // A root and segments, or segments alone under `state`; each segment but a leading one behind a dot.
  predicate SpellsPath(ts: seq<Tok>, root: PathRoot, parts: seq<string>) {
    ts != [] && ts[0].Id?
    && match ts[0].name
       case "state" => root == State && SpellsSegments(ts[1..], parts)
       case "actor" => root == Actor && SpellsSegments(ts[1..], parts)
       case "payload" => root == Payload && SpellsSegments(ts[1..], parts)
       case "context" => root == Context && SpellsSegments(ts[1..], parts)
       case name => root == State && parts != [] && parts[0] == name && SpellsSegments(ts[1..], parts[1..])
  }

  predicate SpellsSegments(ts: seq<Tok>, parts: seq<string>) {
    |ts| == 2 * |parts|
    && forall i :: 0 <= i < |parts| ==>
         IsPunct(ts[2 * i], '.') && IsId(ts[2 * i + 1]) && IdText(ts[2 * i + 1]) == parts[i]
  }

  ghost predicate SplitsConditional(ts: seq<Tok>, i: nat, j: nat, e: Expr)
    requires e.Conditional?
    decreases |ts|, 0
  {
    0 < i < j < |ts| && IsKw(ts[0], KIf) && IsKw(ts[i], KThen) && IsKw(ts[j], KElse)
    && Spells(1, ts[1..i], e.test) && Spells(1, ts[i + 1..j], e.thenBranch) && Spells(1, ts[j + 1..], e.elseBranch)
  }

  ghost predicate SplitsQuantifier(ts: seq<Tok>, i: nat, e: Expr)
    requires e.CollectionPred?
    decreases |ts|, 0
  {
    3 <= i < |ts| && ts[0] == Kw(if e.kind.All? then KAll else KAny) && IsId(ts[1]) && IdText(ts[1]) == e.variable
    && IsKw(ts[2], KIn) && IsPunct(ts[i], ':') && e.bound == 64
    && Spells(1, ts[3..i], e.domain) && Spells(1, ts[i + 1..], e.body)
  }

  // Arguments between commas.
  ghost predicate SpellsArgs(ts: seq<Tok>, args: seq<Expr>)
    decreases |ts|, 11
  {
    args != []
    && if |args| == 1 then Spells(1, ts, args[0]) else exists i :: SplitsArgs(ts, i, args)
  }

  ghost predicate SplitsArgs(ts: seq<Tok>, i: nat, args: seq<Expr>)
    requires |args| > 1
    decreases |ts|, 0
  {
    0 < i < |ts| && IsPunct(ts[i], ',') && Spells(1, ts[..i], args[0]) && SpellsArgs(ts[i + 1..], args[1..])
  }

  // ----- what a reading has consumed

  // Everything up to the rest.
  function Used(ts: seq<Tok>, rest: seq<Tok>): seq<Tok> {
    if |rest| <= |ts| then ts[..|ts| - |rest|] else []
  }

  predicate Remains(ts: seq<Tok>, rest: seq<Tok>) { |rest| <= |ts| && ts[|ts| - |rest|..] == rest }

  ghost predicate Reads(level: nat, ts: seq<Tok>, r: Reading) {
    r.Some? ==> Remains(ts, r.value.1) && Spells(level, Used(ts, r.value.1), r.value.0)
  }

  ghost predicate Carries(level: nat, pre: seq<Tok>, ts: seq<Tok>, r: Reading) {
    r.Some? ==> Remains(ts, r.value.1) && Spells(level, pre + Used(ts, r.value.1), r.value.0)
  }

  lemma RemainsBehind(a: seq<Tok>, ts: seq<Tok>, rest: seq<Tok>)
    requires Remains(ts, rest)
    ensures Remains(a + ts, rest) && Used(a + ts, rest) == a + Used(ts, rest)
  {
  }

  // Reading on from what was left.
  lemma RemainsThrough(ts: seq<Tok>, middle: seq<Tok>, rest: seq<Tok>)
    requires Remains(ts, middle) && Remains(middle, rest)
    ensures Remains(ts, rest) && Used(ts, rest) == Used(ts, middle) + Used(middle, rest)
  {
    assert ts == Used(ts, middle) + middle;
    RemainsBehind(Used(ts, middle), middle, rest);
  }

  lemma OneToken(ts: seq<Tok>, rest: seq<Tok>)
    requires ts != [] && Remains(ts[1..], rest)
    ensures Remains(ts, rest) && Used(ts, rest) == [ts[0]] + Used(ts[1..], rest)
  {
    assert ts == [ts[0]] + ts[1..];
    RemainsBehind([ts[0]], ts[1..], rest);
  }

  lemma NothingUsed(ts: seq<Tok>)
    ensures Remains(ts, ts) && Used(ts, ts) == []
  {
  }

  lemma {:induction false} SpellsSomething(level: nat, ts: seq<Tok>, e: Expr)
    requires Spells(level, ts, e)
    ensures ts != []
    decreases if level < 8 then 8 - level else 0
  {
    if level >= 8 {
      PrimarySomething(ts, e);
    } else if Spells(level + 1, ts, e) {
      SpellsSomething(level + 1, ts, e);
    } else if e.Binary? && exists i :: SplitsBinary(ts, i, e) {
      var i :| SplitsBinary(ts, i, e);
    }
  }

  lemma PrimarySomething(ts: seq<Tok>, e: Expr)
    requires SpellsPrimary(ts, e)
    ensures ts != []
  {
    hide Spells, IsKw, IsPunct, IsId;
    if e.Conditional? && exists i, j :: SplitsConditional(ts, i, j, e) {
      var i, j :| SplitsConditional(ts, i, j, e);
    } else if e.CollectionPred? && exists i :: SplitsQuantifier(ts, i, e) {
      var i :| SplitsQuantifier(ts, i, e);
    }
  }

  lemma SpellsOuter(level: nat, ts: seq<Tok>, e: Expr)
    requires level < 8 && Spells(level + 1, ts, e)
    ensures Spells(level, ts, e)
  {
  }

  lemma SpellsBinary(op: BinOp, a: seq<Tok>, t: Tok, b: seq<Tok>, left: Expr, right: Expr)
    requires Joins(t, op) && Spells(FirstLevel(op), a, left) && Spells(OwnLevel(op) + 1, b, right)
    ensures Spells(OwnLevel(op), a + ([t] + b), Binary(op, left, right))
  {
    SpellsSomething(FirstLevel(op), a, left);
    var ts, e := a + ([t] + b), Binary(op, left, right);
    assert ts[..|a|] == a && ts[|a| + 1..] == b && ts[|a|] == t;
    assert SplitsBinary(ts, |a|, e);
    hide SplitsBinary, Joins;
  }

  // One more operand on a chain that leans to the left.
  lemma ChainSpelled(op: BinOp, pre: seq<Tok>, ts: seq<Tok>, left: Expr, right: Expr, middle: seq<Tok>)
    requires ts != [] && Joins(ts[0], op) && FirstLevel(op) == OwnLevel(op) && Spells(OwnLevel(op), pre, left)
    requires Remains(ts[1..], middle) && Spells(OwnLevel(op) + 1, Used(ts[1..], middle), right)
    ensures Remains(ts, middle) && Spells(OwnLevel(op), pre + Used(ts, middle), Binary(op, left, right))
  {
    hide Spells, Joins, Remains, Used;
    OneToken(ts, middle);
    SpellsBinary(op, pre, ts[0], Used(ts[1..], middle), left, right);
  }

  lemma CarriesOn(level: nat, pre: seq<Tok>, ts: seq<Tok>, middle: seq<Tok>, r: Reading)
    requires Remains(ts, middle) && Carries(level, pre + Used(ts, middle), middle, r)
    ensures Carries(level, pre, ts, r)
  {
    if r.Some? {
      RemainsThrough(ts, middle, r.value.1);
      assert pre + Used(ts, middle) + Used(middle, r.value.1) == pre + (Used(ts, middle) + Used(middle, r.value.1));
    }
    hide Spells, Remains, Used;
  }

  lemma CarriesDone(level: nat, pre: seq<Tok>, ts: seq<Tok>, e: Expr)
    requires Spells(level, pre, e)
    ensures Carries(level, pre, ts, Some((e, ts)))
  {
    NothingUsed(ts);
    assert pre + [] == pre;
    hide Spells, Remains, Used;
  }

  // A first operand, and what the loop makes of it.
  lemma ReadsThenCarries(level: nat, ts: seq<Tok>, middle: seq<Tok>, r: Reading)
    requires Remains(ts, middle) && Carries(level, Used(ts, middle), middle, r)
    ensures Reads(level, ts, r)
  {
    if r.Some? {
      RemainsThrough(ts, middle, r.value.1);
    }
    hide Spells, Remains, Used;
  }

  // ----- the parser, level by level

  lemma {:induction false} OrSpelled(ts: seq<Tok>)
    requires Ended(ts)
    ensures Reads(1, ts, POr(ts))
    decreases |ts|, 9, 0
  {
    hide PAnd, OrLoop, Spells, Remains, Used;
    AndSpelled(ts);
    var left := PAnd(ts);
    if left.Some? {
      var (e, rest) := left.value;
      SpellsOuter(1, Used(ts, rest), e);
      OrLoopSpelled(e, Used(ts, rest), rest);
      ReadsThenCarries(1, ts, rest, OrLoop(e, rest));
    }
  }

  lemma {:induction false} OrLoopSpelled(left: Expr, pre: seq<Tok>, ts: seq<Tok>)
    requires Ended(ts) && Spells(1, pre, left)
    ensures Carries(1, pre, ts, OrLoop(left, ts))
    decreases |ts|, 10, 0
  {
    hide PAnd, Spells, Remains, Used, Carries, IsKw;
    MoreBehind(ts, KOr, '(');
    if IsKw(ts[0], KOr) {
      AndSpelled(ts[1..]);
      var right := PAnd(ts[1..]);
      if right.Some? {
        var (e, rest) := right.value;
        ChainSpelled(Or, pre, ts, left, e, rest);
        OrLoopSpelled(Binary(Or, left, e), pre + Used(ts, rest), rest);
        CarriesOn(1, pre, ts, rest, OrLoop(Binary(Or, left, e), rest));
      } else {
        FailureCarries(1, pre, ts);
      }
    } else {
      CarriesDone(1, pre, ts, left);
    }
  }

  lemma FailureCarries(level: nat, pre: seq<Tok>, ts: seq<Tok>)
    ensures Carries(level, pre, ts, None)
  {
  }

  lemma {:induction false} AndSpelled(ts: seq<Tok>)
    requires Ended(ts)
    ensures Reads(2, ts, PAnd(ts))
    decreases |ts|, 8, 0
  {
    hide PNot, AndLoop, Spells, Remains, Used;
    NotSpelled(ts);
    var left := PNot(ts);
    if left.Some? {
      var (e, rest) := left.value;
      SpellsOuter(2, Used(ts, rest), e);
      AndLoopSpelled(e, Used(ts, rest), rest);
      ReadsThenCarries(2, ts, rest, AndLoop(e, rest));
    }
  }

  lemma {:induction false} AndLoopSpelled(left: Expr, pre: seq<Tok>, ts: seq<Tok>)
    requires Ended(ts) && Spells(2, pre, left)
    ensures Carries(2, pre, ts, AndLoop(left, ts))
    decreases |ts|, 10, 0
  {
    hide PNot, Spells, Remains, Used, Carries, IsKw;
    MoreBehind(ts, KAnd, '(');
    if IsKw(ts[0], KAnd) {
      NotSpelled(ts[1..]);
      var right := PNot(ts[1..]);
      if right.Some? {
        var (e, rest) := right.value;
        ChainSpelled(And, pre, ts, left, e, rest);
        AndLoopSpelled(Binary(And, left, e), pre + Used(ts, rest), rest);
        CarriesOn(2, pre, ts, rest, AndLoop(Binary(And, left, e), rest));
      } else {
        FailureCarries(2, pre, ts);
      }
    } else {
      CarriesDone(2, pre, ts, left);
    }
  }

  lemma SpellsUnary(uop: UnOp, t: Tok, ts: seq<Tok>, operand: Expr)
    requires match uop case NotOp => IsKw(t, KNot) case Neg => t == OpTok(Minus) case Pos => t == OpTok(Plus)
    requires Spells(if uop.NotOp? then 3 else 7, ts, operand)
    ensures Spells(if uop.NotOp? then 3 else 7, [t] + ts, Unary(uop, operand))
  {
    SpellsSomething(if uop.NotOp? then 3 else 7, ts, operand);
    assert ([t] + ts)[1..] == ts;
    hide IsKw;
  }

  lemma {:induction false} NotSpelled(ts: seq<Tok>)
    requires Ended(ts)
    ensures Reads(3, ts, PNot(ts))
    decreases |ts|, 7, 0
  {
    hide PComparison, Spells, Remains, Used, IsKw;
    MoreBehind(ts, KNot, '(');
    if IsKw(ts[0], KNot) {
      NotSpelled(ts[1..]);
      var operand := PNot(ts[1..]);
      if operand.Some? {
        var (e, rest) := operand.value;
        OneToken(ts, rest);
        SpellsUnary(NotOp, ts[0], Used(ts[1..], rest), e);
      }
    } else {
      ComparisonSpelled(ts);
      var r := PComparison(ts);
      if r.Some? {
        SpellsOuter(3, Used(ts, r.value.1), r.value.0);
      }
    }
  }

  lemma {:induction false} ComparisonSpelled(ts: seq<Tok>)
    requires Ended(ts)
    ensures Reads(4, ts, PComparison(ts))
    decreases |ts|, 6, 1
  {
    hide PAdd, CompareWith, Spells, Remains, Used;
    AddSpelled(ts);
    var left := PAdd(ts);
    if left.Some? {
      var (e, rest) := left.value;
      CompareSpelled(e, Used(ts, rest), rest);
      ReadsThenCarries(4, ts, rest, CompareWith(e, rest));
    }
  }

  lemma SpellsMembership(a: seq<Tok>, t: Tok, b: seq<Tok>, left: Expr, right: Expr)
    requires Spells(5, a, left) && Spells(5, b, right)
    ensures IsKw(t, KIn) ==> Spells(4, a + ([t] + b), Membership(left, right, false))
    ensures IsKw(t, KContains) ==> Spells(4, a + ([t] + b), Membership(right, left, false))
  {
    SpellsSomething(5, a, left);
    var ts := a + ([t] + b);
    assert ts[..|a|] == a && ts[|a| + 1..] == b && ts[|a|] == t;
    assert IsKw(t, KIn) ==> SplitsMembership(ts, |a|, Membership(left, right, false));
    assert IsKw(t, KContains) ==> SplitsMembership(ts, |a|, Membership(right, left, false));
    hide SplitsMembership, IsKw;
  }

  lemma SignsRead(t: Tok)
    ensures ComparisonOp(t).Some? || AdditiveOp(t).Some? || MultiplicativeOp(t).Some? ==> t.OpTok?
    ensures ComparisonOp(t).Some? ==> Joins(t, ComparisonOp(t).value) && OwnLevel(ComparisonOp(t).value) == 4
    ensures AdditiveOp(t).Some? ==> Joins(t, AdditiveOp(t).value) && OwnLevel(AdditiveOp(t).value) == 5
    ensures MultiplicativeOp(t).Some? ==> Joins(t, MultiplicativeOp(t).value) && OwnLevel(MultiplicativeOp(t).value) == 6
  {
  }

  lemma {:induction false} CompareSpelled(left: Expr, pre: seq<Tok>, ts: seq<Tok>)
    requires Ended(ts) && Spells(5, pre, left)
    ensures Carries(4, pre, ts, CompareWith(left, ts))
    decreases |ts|, 6, 0
  {
    hide PAdd, Spells, Remains, Used, IsKw, ComparisonOp, Joins, OwnLevel;
    SignsRead(ts[0]);
    MoreBehind(ts, KIn, '(');
    MoreBehind(ts, KContains, '(');
    if IsKw(ts[0], KIn) || IsKw(ts[0], KContains) || ComparisonOp(ts[0]).Some? {
      AddSpelled(ts[1..]);
      var right := PAdd(ts[1..]);
      if right.Some? {
        var (e, rest) := right.value;
        OneToken(ts, rest);
        SpellsMembership(pre, ts[0], Used(ts[1..], rest), left, e);
        if ComparisonOp(ts[0]).Some? {
          SpellsComparison(ComparisonOp(ts[0]).value, pre, ts[0], Used(ts[1..], rest), left, e);
        }
      }
    } else {
      SpellsOuter(4, pre, left);
      CarriesDone(4, pre, ts, left);
    }
  }

  lemma SpellsComparison(op: BinOp, a: seq<Tok>, t: Tok, b: seq<Tok>, left: Expr, right: Expr)
    requires OwnLevel(op) == 4 && Joins(t, op) && Spells(5, a, left) && Spells(5, b, right)
    ensures Spells(4, a + ([t] + b), Binary(op, left, right))
  {
    hide Spells, Joins;
    SpellsBinary(op, a, t, b, left, right);
  }

  lemma {:induction false} AddSpelled(ts: seq<Tok>)
    requires Ended(ts)
    ensures Reads(5, ts, PAdd(ts))
    decreases |ts|, 5, 0
  {
    hide PMul, AddLoop, Spells, Remains, Used;
    MulSpelled(ts);
    var left := PMul(ts);
    if left.Some? {
      var (e, rest) := left.value;
      SpellsOuter(5, Used(ts, rest), e);
      AddLoopSpelled(e, Used(ts, rest), rest);
      ReadsThenCarries(5, ts, rest, AddLoop(e, rest));
    }
  }

  lemma {:induction false} AddLoopSpelled(left: Expr, pre: seq<Tok>, ts: seq<Tok>)
    requires Ended(ts) && Spells(5, pre, left)
    ensures Carries(5, pre, ts, AddLoop(left, ts))
    decreases |ts|, 10, 0
  {
    hide PMul, Spells, Remains, Used, Carries, AdditiveOp, Joins, OwnLevel;
    SignsRead(ts[0]);
    MoreBehind(ts, KIn, '(');
    if AdditiveOp(ts[0]).Some? {
      MulSpelled(ts[1..]);
      var right, op := PMul(ts[1..]), AdditiveOp(ts[0]).value;
      if right.Some? {
        var (e, rest) := right.value;
        ChainSpelled(op, pre, ts, left, e, rest);
        AddLoopSpelled(Binary(op, left, e), pre + Used(ts, rest), rest);
        CarriesOn(5, pre, ts, rest, AddLoop(Binary(op, left, e), rest));
      } else {
        FailureCarries(5, pre, ts);
      }
    } else {
      CarriesDone(5, pre, ts, left);
    }
  }

  lemma {:induction false} MulSpelled(ts: seq<Tok>)
    requires Ended(ts)
    ensures Reads(6, ts, PMul(ts))
    decreases |ts|, 4, 0
  {
    hide PUnary, MulLoop, Spells, Remains, Used;
    UnarySpelled(ts);
    var left := PUnary(ts);
    if left.Some? {
      var (e, rest) := left.value;
      SpellsOuter(6, Used(ts, rest), e);
      MulLoopSpelled(e, Used(ts, rest), rest);
      ReadsThenCarries(6, ts, rest, MulLoop(e, rest));
    }
  }

  lemma {:induction false} MulLoopSpelled(left: Expr, pre: seq<Tok>, ts: seq<Tok>)
    requires Ended(ts) && Spells(6, pre, left)
    ensures Carries(6, pre, ts, MulLoop(left, ts))
    decreases |ts|, 10, 0
  {
    hide PUnary, Spells, Remains, Used, Carries, MultiplicativeOp, Joins, OwnLevel;
    SignsRead(ts[0]);
    MoreBehind(ts, KIn, '(');
    if MultiplicativeOp(ts[0]).Some? {
      UnarySpelled(ts[1..]);
      var right, op := PUnary(ts[1..]), MultiplicativeOp(ts[0]).value;
      if right.Some? {
        var (e, rest) := right.value;
        ChainSpelled(op, pre, ts, left, e, rest);
        MulLoopSpelled(Binary(op, left, e), pre + Used(ts, rest), rest);
        CarriesOn(6, pre, ts, rest, MulLoop(Binary(op, left, e), rest));
      } else {
        FailureCarries(6, pre, ts);
      }
    } else {
      CarriesDone(6, pre, ts, left);
    }
  }

  lemma {:induction false} UnarySpelled(ts: seq<Tok>)
    requires Ended(ts)
    ensures Reads(7, ts, PUnary(ts))
    decreases |ts|, 3, 0
  {
    hide PPrimary, Spells, Remains, Used;
    if ts[0] == OpTok(Minus) || ts[0] == OpTok(Plus) {
      UnarySpelled(ts[1..]);
      var operand := PUnary(ts[1..]);
      if operand.Some? {
        var (e, rest) := operand.value;
        OneToken(ts, rest);
        SpellsUnary(if ts[0] == OpTok(Minus) then Neg else Pos, ts[0], Used(ts[1..], rest), e);
      }
    } else {
      PrimarySpelled(ts);
      var r := PPrimary(ts);
      if r.Some? {
        SpellsOuter(7, Used(ts, r.value.1), r.value.0);
      }
    }
  }

  // A phrase, one token, and a phrase.
  lemma StepThrough(ts: seq<Tok>, a: seq<Tok>, b: seq<Tok>)
    requires Remains(ts, a) && a != [] && Remains(a[1..], b)
    ensures Remains(ts, b) && Used(ts, b) == Used(ts, a) + ([a[0]] + Used(a[1..], b))
  {
    hide Remains, Used;
    OneToken(a, b);
    RemainsThrough(ts, a, b);
  }

  lemma {:induction false} PrimarySpelled(ts: seq<Tok>)
    requires Ended(ts)
    ensures Reads(8, ts, PPrimary(ts))
    decreases |ts|, 2, 0
  {
    hide POr, PConditional, PCollectionPred, PAtom, Spells, Remains, Used, IsKw, IsPunct;
    MoreBehind(ts, KIf, '(');
    if IsKw(ts[0], KIf) {
      ConditionalSpelled(ts);
    } else if ts[0] == Kw(KAll) || ts[0] == Kw(KAny) {
      QuantifierSpelled(if ts[0] == Kw(KAll) then All else Any, ts);
    } else if IsPunct(ts[0], '(') {
      BracketsSpelled(ts);
    } else {
      AtomSpelled(ts);
    }
  }

  lemma MoreBehind(ts: seq<Tok>, k: Keyword, c: char)
    requires Ended(ts)
    ensures IsKw(ts[0], k) || IsPunct(ts[0], c) || ts[0].OpTok? || ts[0].Kw? || ts[0].Id? ==> |ts| > 1 && Ended(ts[1..])
  {
  }

  lemma SpellsBrackets(open: Tok, a: seq<Tok>, close: Tok, e: Expr)
    requires IsPunct(open, '(') && IsPunct(close, ')') && Spells(1, a, e)
    ensures Spells(8, [open] + (a + [close]), e)
  {
    SpellsSomething(1, a, e);
    var ts := [open] + (a + [close]);
    assert ts[1..|ts| - 1] == a && ts[|ts| - 1] == close;
    hide IsPunct;
  }

  lemma {:induction false} BracketsSpelled(ts: seq<Tok>)
    requires Ended(ts) && |ts| > 1 && Ended(ts[1..]) && IsPunct(ts[0], '(')
    ensures var inner := POr(ts[1..]);
      inner.Some? && IsPunct(inner.value.1[0], ')') ==> Reads(8, ts, Some((inner.value.0, inner.value.1[1..])))
    decreases |ts|, 1, 0
  {
    hide POr, Spells, Remains, Used, IsPunct;
    OrSpelled(ts[1..]);
    var inner := POr(ts[1..]);
    if inner.Some? && IsPunct(inner.value.1[0], ')') {
      var (e, rest) := inner.value;
      NothingUsed(rest[1..]);
      StepThrough(ts[1..], rest, rest[1..]);
      OneToken(ts, rest[1..]);
      assert [rest[0]] + [] == [rest[0]];
      SpellsBrackets(ts[0], Used(ts[1..], rest), rest[0], e);
    }
  }

  lemma SpellsConditional(i: Tok, a: seq<Tok>, t: Tok, b: seq<Tok>, l: Tok, c: seq<Tok>, e: Expr)
    requires e.Conditional? && IsKw(i, KIf) && IsKw(t, KThen) && IsKw(l, KElse)
    requires Spells(1, a, e.test) && Spells(1, b, e.thenBranch) && Spells(1, c, e.elseBranch)
    ensures Spells(8, [i] + (a + ([t] + b) + ([l] + c)), e)
  {
    var ts := [i] + (a + ([t] + b) + ([l] + c));
    var m, n := |a| + 1, |a| + |b| + 2;
    assert ts[1..m] == a && ts[m] == t && ts[m + 1..n] == b && ts[n] == l && ts[n + 1..] == c;
    assert SplitsConditional(ts, m, n, e);
    hide SplitsConditional, IsKw;
  }

  lemma {:induction false} ConditionalSpelled(ts: seq<Tok>)
    requires Ended(ts) && |ts| > 1 && Ended(ts[1..]) && IsKw(ts[0], KIf)
    ensures Reads(8, ts, PConditional(ts[1..]))
    decreases |ts|, 1, 0
  {
    hide POr, Spells, Remains, Used, IsKw;
    OrSpelled(ts[1..]);
    var test := POr(ts[1..]);
    if test.Some? && IsKw(test.value.1[0], KThen) {
      var (t, second) := test.value;
      MoreBehind(second, KThen, ':');
      OrSpelled(second[1..]);
      var yes := POr(second[1..]);
      if yes.Some? && IsKw(yes.value.1[0], KElse) {
        var (y, third) := yes.value;
        MoreBehind(third, KElse, ':');
        OrSpelled(third[1..]);
        var no := POr(third[1..]);
        if no.Some? {
          var (n, rest) := no.value;
          StepThrough(ts[1..], second, third);
          StepThrough(ts[1..], third, rest);
          OneToken(ts, rest);
          SpellsConditional(ts[0], Used(ts[1..], second), second[0], Used(second[1..], third), third[0], Used(third[1..], rest),
                            Conditional(t, y, n));
        }
      }
    }
  }

  lemma SpellsQuantifier(head: seq<Tok>, a: seq<Tok>, colon: Tok, b: seq<Tok>, e: Expr)
    requires e.CollectionPred? && e.bound == 64 && |head| == 3 && head[0] == Kw(if e.kind.All? then KAll else KAny)
    requires IsId(head[1]) && IdText(head[1]) == e.variable && IsKw(head[2], KIn) && IsPunct(colon, ':')
    requires Spells(1, a, e.domain) && Spells(1, b, e.body)
    ensures Spells(8, head + (a + ([colon] + b)), e)
  {
    var ts := head + (a + ([colon] + b));
    var i := 3 + |a|;
    assert ts[..3] == head && ts[3..i] == a && ts[i] == colon && ts[i + 1..] == b;
    assert ts[0] == head[0] && ts[1] == head[1] && ts[2] == head[2];
    assert SplitsQuantifier(ts, i, e);
    hide SplitsQuantifier, IsKw, IsPunct, IsId;
  }

  lemma IdIsNotLast(ts: seq<Tok>)
    requires Ended(ts) && IsId(ts[0])
    ensures |ts| > 1 && (IsKw(ts[1], KIn) ==> |ts| > 2 && Ended(ts[2..]))
  {
  }

  lemma {:induction false} QuantifierSpelled(kind: Quantifier, ts: seq<Tok>)
    requires Ended(ts) && ts[0] == Kw(if kind.All? then KAll else KAny)
    ensures Reads(8, ts, PCollectionPred(kind, ts[1..]))
    decreases |ts|, 1, 0
  {
    hide POr, Spells, Remains, Used, IsKw, IsPunct, IsId;
    var us := ts[1..];
    if IsId(us[0]) {
      IdIsNotLast(us);
      if IsKw(us[1], KIn) {
        OrSpelled(us[2..]);
        var domain := POr(us[2..]);
        if domain.Some? && IsPunct(domain.value.1[0], ':') {
          var (d, second) := domain.value;
          MoreBehind(second, KThen, ':');
          OrSpelled(second[1..]);
          var body := POr(second[1..]);
          if body.Some? {
            var (b, rest) := body.value;
            var head := [ts[0], us[0], us[1]];
            StepThrough(us[2..], second, rest);
            assert ts == head + us[2..];
            RemainsBehind(head, us[2..], rest);
            SpellsQuantifier(head, Used(us[2..], second), second[0], Used(second[1..], rest),
                             CollectionPred(kind, IdText(us[0]), d, b, 64));
          }
        }
      }
    }
  }

  lemma LiteralSpelled(ts: seq<Tok>)
    requires Ended(ts) && !ts[0].Id?
    ensures Reads(8, ts, PAtom(ts))
  {
    hide NumberValue;
    if |ts| > 1 && PAtom(ts).Some? {
      NothingUsed(ts[1..]);
      OneToken(ts, ts[1..]);
      NumberIsNumber(ts[0]);
      assert [ts[0]] + [] == [ts[0]];
      SpellsLiteral(ts[0], PAtom(ts).value.0.value);
    }
    hide Spells, Remains, Used;
  }

  lemma SpellsLiteral(t: Tok, v: Value)
    requires Denotes(t, v)
    ensures Spells(8, [t], Literal(v))
  {
    hide Denotes;
  }

  lemma NumberIsNumber(t: Tok)
    ensures t.Num? && NumberValue(t.raw).Some? ==> NumberValue(t.raw).value.VInt? || NumberValue(t.raw).value.VFloat?
  {
    hide DigitsValue, TenTo, DotAt;
  }

  lemma {:induction false} AtomSpelled(ts: seq<Tok>)
    requires Ended(ts)
    ensures Reads(8, ts, PAtom(ts))
    decreases |ts|, 1, 0
  {
    hide PPathOrCall, Reads;
    if ts[0].Id? {
      if IsPunct(ts[1], '(') {
        CallSpelled(ts);
      } else {
        PathRefSpelled(ts);
      }
    } else {
      LiteralSpelled(ts);
    }
  }

  lemma {:induction false} SegmentsSpelled(root: PathRoot, parts: seq<string>, ts: seq<Tok>) returns (more: seq<string>)
    requires Ended(ts)
    ensures var r := PPath(root, parts, ts);
      r.Some? ==> r.value.0 == PathRef(root, parts + more) && Remains(ts, r.value.1) && SpellsSegments(Used(ts, r.value.1), more)
    decreases |ts|
  {
    hide Remains, Used, IsPunct, IsId, SpellsSegments;
    more := [];
    if IsPunct(ts[0], '.') {
      MoreBehind(ts, KThen, '.');
      if IsId(ts[1]) {
        IdIsNotLast(ts[1..]);
        var name := IdText(ts[1]);
        var tail := SegmentsSpelled(root, parts + [name], ts[2..]);
        more := [name] + tail;
        var r := PPath(root, parts + [name], ts[2..]);
        if r.Some? {
          assert parts + [name] + tail == parts + more;
          assert ts == [ts[0], ts[1]] + ts[2..];
          RemainsBehind([ts[0], ts[1]], ts[2..], r.value.1);
          OneSegment(ts[0], ts[1], Used(ts[2..], r.value.1), tail);
        }
      }
    } else {
      NothingUsed(ts);
      NoSegments();
      assert parts + [] == parts;
    }
  }

  lemma NoSegments()
    ensures SpellsSegments([], [])
  {
  }

  lemma OneSegment(dot: Tok, t: Tok, ts: seq<Tok>, parts: seq<string>)
    requires IsPunct(dot, '.') && IsId(t) && SpellsSegments(ts, parts)
    ensures SpellsSegments([dot, t] + ts, [IdText(t)] + parts)
  {
    hide IsPunct, IsId;
    var us, ps := [dot, t] + ts, [IdText(t)] + parts;
    forall i | 0 <= i < |ps|
      ensures IsPunct(us[2 * i], '.') && IsId(us[2 * i + 1]) && IdText(us[2 * i + 1]) == ps[i]
    {
      if i > 0 {
        assert us[2 * i] == ts[2 * (i - 1)] && us[2 * i + 1] == ts[2 * (i - 1) + 1] && ps[i] == parts[i - 1];
      }
    }
  }

  lemma PathSpells(ts: seq<Tok>, root: PathRoot, parts: seq<string>)
    requires ts != [] && ts[0].Id?
    requires root == (if RootFor(ts[0].name).Some? then RootFor(ts[0].name).value else State)
    requires if RootFor(ts[0].name).Some? then SpellsSegments(ts[1..], parts)
             else parts != [] && parts[0] == ts[0].name && SpellsSegments(ts[1..], parts[1..])
    ensures Spells(8, ts, PathRef(root, parts))
  {
    hide SpellsSegments;
    assert SpellsPath(ts, root, parts);
  }

  lemma PathRefSpelled(ts: seq<Tok>)
    requires Ended(ts) && ts[0].Id? && |ts| > 1 && !IsPunct(ts[1], '(')
    ensures Reads(8, ts, PAtom(ts))
  {
    hide Spells, Remains, Used, SpellsSegments, PPath, RootFor, IsPunct;
    var name := ts[0].name;
    var known := RootFor(name).Some?;
    var root, parts := if known then RootFor(name).value else State, if known then [] else [name];
    var more := SegmentsSpelled(root, parts, ts[1..]);
    var r := PPath(root, parts, ts[1..]);
    assert PAtom(ts) == PPathOrCall(name, ts[1..]) == r;
    if r.Some? {
      OneToken(ts, r.value.1);
      assert [] + more == more && ([name] + more)[1..] == more;
      assert ([ts[0]] + Used(ts[1..], r.value.1))[1..] == Used(ts[1..], r.value.1);
      PathSpells(Used(ts, r.value.1), root, parts + more);
    }
  }

  lemma SpellsOneArg(ts: seq<Tok>, e: Expr)
    requires Spells(1, ts, e)
    ensures SpellsArgs(ts, [e])
  {
    hide Spells;
  }

  lemma SpellsMoreArgs(a: seq<Tok>, comma: Tok, b: seq<Tok>, e: Expr, args: seq<Expr>)
    requires Spells(1, a, e) && IsPunct(comma, ',') && SpellsArgs(b, args)
    ensures SpellsArgs(a + ([comma] + b), [e] + args)
  {
    SpellsSomething(1, a, e);
    hide Spells, IsPunct;
    var ts := a + ([comma] + b);
    assert ts[..|a|] == a && ts[|a| + 1..] == b && ts[|a|] == comma && ([e] + args)[1..] == args;
    assert SplitsArgs(ts, |a|, [e] + args);
  }

  lemma {:induction false} ArgsSpelled(sofar: seq<Expr>, ts: seq<Tok>) returns (more: seq<Expr>)
    requires Ended(ts)
    ensures var r := PArgs(sofar, ts);
      r.Some? ==> r.value.0 == sofar + more && Remains(ts, r.value.1) && SpellsArgs(Used(ts, r.value.1), more)
    decreases |ts|, 10, 0
  {
    hide POr, Spells, Remains, Used, IsPunct, SpellsArgs;
    OrSpelled(ts);
    var arg := POr(ts);
    more := [];
    if arg.Some? {
      var (e, rest) := arg.value;
      if IsPunct(rest[0], ',') {
        MoreBehind(rest, KThen, ',');
        var tail := ArgsSpelled(sofar + [e], rest[1..]);
        more := [e] + tail;
        var r := PArgs(sofar + [e], rest[1..]);
        if r.Some? {
          assert sofar + [e] + tail == sofar + more;
          StepThrough(ts, rest, r.value.1);
          SpellsMoreArgs(Used(ts, rest), rest[0], Used(rest[1..], r.value.1), e, tail);
        }
      } else {
        more := [e];
        SpellsOneArg(Used(ts, rest), e);
      }
    }
  }

  lemma SpellsCall(name: string, open: Tok, a: seq<Tok>, close: Tok, args: seq<Expr>)
    requires IsPunct(open, '(') && IsPunct(close, ')') && if args == [] then a == [] else a != [] && SpellsArgs(a, args)
    ensures Spells(8, [Id(name), open] + (a + [close]), Call(name, args))
  {
    var ts := [Id(name), open] + (a + [close]);
    assert ts[2..|ts| - 1] == a && ts[|ts| - 1] == close;
    hide IsPunct, SpellsArgs;
  }

  lemma ArgsSomething(ts: seq<Tok>, args: seq<Expr>)
    requires SpellsArgs(ts, args)
    ensures args != [] && ts != []
  {
    hide Spells;
    if |args| == 1 {
      SpellsSomething(1, ts, args[0]);
    }
  }

  // What the parser makes of a called name.
  lemma CallReading(ts: seq<Tok>)
    requires Ended(ts) && ts[0].Id? && |ts| > 1 && IsPunct(ts[1], '(')
    ensures |ts| > 2 && Ended(ts[2..])
    ensures ts[2] == Punct(')') ==> |ts| > 3 && PAtom(ts) == Some((Call(ts[0].name, []), ts[3..]))
    ensures ts[2] != Punct(')') ==>
      var args := PArgs([], ts[2..]);
      PAtom(ts) == if args.None? || !IsPunct(args.value.1[0], ')') then None
                   else Some((Call(ts[0].name, args.value.0), args.value.1[1..]))
  {
    hide PArgs, PPath;
    var us := ts[1..];
    assert us[1..] == ts[2..] && us[2..] == ts[3..];
    assert PAtom(ts) == PPathOrCall(ts[0].name, us);
  }

  lemma EmptyCallSpelled(ts: seq<Tok>)
    requires |ts| > 3 && ts[0].Id? && IsPunct(ts[1], '(') && ts[2] == Punct(')')
    ensures Reads(8, ts, Some((Call(ts[0].name, []), ts[3..])))
  {
    PunctIsItself(')');
    SpellsCall(ts[0].name, ts[1], [], ts[2], []);
    hide Spells, IsPunct;
    assert [Id(ts[0].name), ts[1]] + ([] + [ts[2]]) == ts[..3];
  }

  lemma FullCallSpelled(ts: seq<Tok>, args: seq<Expr>, rest: seq<Tok>)
    requires |ts| > 2 && ts[0].Id? && IsPunct(ts[1], '(') && rest != [] && IsPunct(rest[0], ')')
    requires Remains(ts[2..], rest) && SpellsArgs(Used(ts[2..], rest), args)
    ensures Reads(8, ts, Some((Call(ts[0].name, args), rest[1..])))
  {
    hide Spells, Remains, Used, IsPunct, SpellsArgs;
    var head := [ts[0], ts[1]];
    assert ts == head + ts[2..];
    NothingUsed(rest[1..]);
    StepThrough(ts[2..], rest, rest[1..]);
    RemainsBehind(head, ts[2..], rest[1..]);
    ArgsSomething(Used(ts[2..], rest), args);
    assert [rest[0]] + [] == [rest[0]];
    SpellsCall(ts[0].name, ts[1], Used(ts[2..], rest), rest[0], args);
  }

  lemma {:induction false} CallSpelled(ts: seq<Tok>)
    requires Ended(ts) && ts[0].Id? && |ts| > 1 && IsPunct(ts[1], '(')
    ensures Reads(8, ts, PAtom(ts))
    decreases |ts|, 0, 0
  {
    hide PAtom, Spells, Remains, Used, IsPunct, SpellsArgs, PArgs, Reads;
    CallReading(ts);
    if ts[2] == Punct(')') {
      EmptyCallSpelled(ts);
    } else {
      var args := ArgsSpelled([], ts[2..]);
      var r := PArgs([], ts[2..]);
      assert [] + args == args;
      if r.Some? && IsPunct(r.value.1[0], ')') {
        FullCallSpelled(ts, args, r.value.1);
      } else {
        FailureReads(8, ts);
      }
    }
  }

  lemma FailureReads(level: nat, ts: seq<Tok>)
    ensures Reads(level, ts, None)
  {
  }

  lemma PunctIsItself(c: char)
    ensures IsPunct(Punct(c), c)
  {
  }

  // Whatever the parser accepts is spelled by the grammar, up to the end of the tokens.
  lemma AcceptedIsSpelled(ts: seq<Tok>)
    requires Eof !in ts && ParseTokens(ts + [Eof]).Some?
    ensures Spells(1, ts, ParseTokens(ts + [Eof]).value)
  {
    hide POr, Spells;
    var us := ts + [Eof];
    OrSpelled(us);
    var rest := POr(us).value.1;
    assert us[|us| - |rest|] == rest[0] == Eof;
    assert |us| - |rest| == |ts| && us[..|ts|] == ts;
  }
}
