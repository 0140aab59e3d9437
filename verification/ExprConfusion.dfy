/** The round trip fails on every other writable tree: a string literal the parser took for syntax never comes back. */
module ExprConfusion {
  import opened Wrappers
  import opened Text
  import opened ExprAst
  import opened ExprLexer
  import opened ExprGrammar
  import opened ExprPrinter
  import opened ExprParser
  import opened ExprText

  // ----- string literals in trees and in tokens

  function Strings(e: Expr): nat
    decreases e
  {
    match e
    case Literal(value) => if value.VStr? then 1 else 0
    case PathRef(_, _) => 0
    case Unary(_, operand) => Strings(operand)
    case Binary(_, left, right) => Strings(left) + Strings(right)
    case Membership(item, collection, _) => Strings(item) + Strings(collection)
    case Conditional(test, thenBranch, elseBranch) => Strings(test) + Strings(thenBranch) + Strings(elseBranch)
    case CollectionPred(_, _, domain, body, _) => Strings(domain) + Strings(body)
    case Call(_, args) => AllStrings(args)
  }

  function AllStrings(args: seq<Expr>): nat
    decreases args
  {
    if args == [] then 0 else Strings(args[0]) + AllStrings(args[1..])
  }

  function StrTokens(ts: seq<Tok>): nat {
    if ts == [] then 0 else (if ts[0].Str? then 1 else 0) + StrTokens(ts[1..])
  }

  lemma {:induction false} StrTokensAdd(a: seq<Tok>, b: seq<Tok>)
    ensures StrTokens(a + b) == StrTokens(a) + StrTokens(b)
  {
    if a == [] {
      assert a + b == b;
    } else {
      assert (a + b)[1..] == a[1..] + b;
      StrTokensAdd(a[1..], b);
    }
  }

  lemma {:induction false} AllStringsAdd(a: seq<Expr>, e: Expr)
    ensures AllStrings(a + [e]) == AllStrings(a) + Strings(e)
  {
    if a == [] {
      assert a + [e] == [e] && [e][1..] == [];
    } else {
      assert (a + [e])[1..] == a[1..] + [e];
      AllStringsAdd(a[1..], e);
    }
  }

  // ----- the account: every literal the parser returns was paid for by a string token

  predicate NoContains(ts: seq<Tok>) { Kw(KContains) !in ts }

  // Clean at a level, and led by the literal "not" only if the tokens were.
  predicate Sound(e: Expr, level: nat, first: Tok) {
    Clean(e, level) && (level >= 4 && Print(e, level)[0] == NOT_STRING ==> first == NOT_STRING)
  }

  // From a first operand (or none) worth `held` strings.
  predicate Accounts(held: nat, ts: seq<Tok>, worth: nat, rest: seq<Tok>) {
    NoContains(ts) ==> NoContains(rest) && worth + StrTokens(rest) <= held + StrTokens(ts)
  }

  predicate Balanced(held: nat, ts: seq<Tok>, worth: nat, rest: seq<Tok>) {
    NoContains(ts) && worth + StrTokens(rest) == held + StrTokens(ts)
  }

  ghost predicate ReadsSoundly(r: Reading, level: nat, ts: seq<Tok>)
    requires Ended(ts)
  {
    r.Some? ==> var (e, rest) := r.value;
      Accounts(0, ts, Strings(e), rest) && (Balanced(0, ts, Strings(e), rest) ==> Sound(e, level, ts[0]))
  }

  ghost predicate CarriesSoundly(r: Reading, level: nat, left: Expr, ts: seq<Tok>, first: Tok) {
    r.Some? ==> var (e, rest) := r.value;
      Accounts(Strings(left), ts, Strings(e), rest)
      && (Balanced(Strings(left), ts, Strings(e), rest) && Sound(left, level, first) ==> Sound(e, level, first))
  }

  lemma Drop(ts: seq<Tok>)
    requires ts != []
    ensures NoContains(ts) ==> NoContains(ts[1..])
    ensures StrTokens(ts) == (if ts[0].Str? then 1 else 0) + StrTokens(ts[1..])
  {
  }

  // Reading one level further in.
  lemma SoundOuter(e: Expr, level: nat, first: Tok)
    requires level != 3 && Sound(e, level + 1, first)
    ensures Sound(e, level, first)
  {
    hide CleanParts, Bare;
  }

  lemma SoundAtNegation(e: Expr, first: Tok)
    requires Sound(e, 4, first) && first != NOT_STRING
    ensures Sound(e, 3, first)
  {
    hide CleanParts, Bare;
  }

  lemma SoundBinary(op: BinOp, left: Expr, right: Expr, first: Tok, second: Tok)
    requires Sound(left, LeftLevel(op), first) && Sound(right, RightLevel(op), second)
    ensures Sound(Binary(op, left, right), Level(Binary(op, left, right)), first)
  {
    var e := Binary(op, left, right);
    assert Bare(e)[0] == Print(left, LeftLevel(op))[0];
    assert CleanParts(e) && Print(e, Level(e)) == Bare(e);
    hide CleanParts, Bare, Print;
  }

  lemma SoundUnary(uop: UnOp, operand: Expr, first: Tok, second: Tok)
    requires Sound(operand, if uop.NotOp? then 3 else 7, second)
    ensures Sound(Unary(uop, operand), if uop.NotOp? then 3 else 7, first)
  {
    var e := Unary(uop, operand);
    assert Bare(e)[0] != NOT_STRING && CleanParts(e);
    hide CleanParts, Bare;
  }

  lemma {:induction false} OrSound(ts: seq<Tok>)
    requires Ended(ts)
    ensures ReadsSoundly(POr(ts), 0, ts)
    decreases |ts|, 9, 0
  {
    hide PAnd, OrLoop, Sound, Strings, NoContains, StrTokens;
    AndSound(ts);
    var left := PAnd(ts);
    if left.Some? {
      OrLoopSound(left.value.0, left.value.1, ts[0]);
      if Sound(left.value.0, 2, ts[0]) {
        SoundOuter(left.value.0, 1, ts[0]);
      }
      var r := POr(ts);
      if r.Some? && Sound(r.value.0, 1, ts[0]) {
        SoundOuter(r.value.0, 0, ts[0]);
      }
    }
  }

  lemma {:induction false} OrLoopSound(left: Expr, ts: seq<Tok>, first: Tok)
    requires Ended(ts)
    ensures CarriesSoundly(OrLoop(left, ts), 1, left, ts, first)
    decreases |ts|, 10, 0
  {
    hide PAnd, Sound, NoContains, StrTokens, KeywordText;
    if IsKw(ts[0], KOr) {
      Drop(ts);
      AndSound(ts[1..]);
      var right := PAnd(ts[1..]);
      if right.Some? {
        var next := Binary(Or, left, right.value.0);
        OrLoopSound(next, right.value.1, first);
        if Sound(left, 1, first) && Sound(right.value.0, 2, ts[1]) {
          SoundBinary(Or, left, right.value.0, first, ts[1]);
        }
      }
    }
  }

  lemma {:induction false} AndSound(ts: seq<Tok>)
    requires Ended(ts)
    ensures ReadsSoundly(PAnd(ts), 2, ts)
    decreases |ts|, 8, 0
  {
    hide PNot, AndLoop, Sound, Strings, NoContains, StrTokens;
    NotSound(ts);
    var left := PNot(ts);
    if left.Some? {
      AndLoopSound(left.value.0, left.value.1, ts[0]);
      if Sound(left.value.0, 3, ts[0]) {
        SoundOuter(left.value.0, 2, ts[0]);
      }
    }
  }

  lemma {:induction false} AndLoopSound(left: Expr, ts: seq<Tok>, first: Tok)
    requires Ended(ts)
    ensures CarriesSoundly(AndLoop(left, ts), 2, left, ts, first)
    decreases |ts|, 10, 0
  {
    hide PNot, Sound, NoContains, StrTokens, KeywordText;
    if IsKw(ts[0], KAnd) {
      Drop(ts);
      NotSound(ts[1..]);
      var right := PNot(ts[1..]);
      if right.Some? {
        var next := Binary(And, left, right.value.0);
        AndLoopSound(next, right.value.1, first);
        if Sound(left, 2, first) && Sound(right.value.0, 3, ts[1]) {
          SoundBinary(And, left, right.value.0, first, ts[1]);
        }
      }
    }
  }

  lemma KeywordNot()
    ensures NOT_STRING == Str(KeywordText(KNot))
  {
  }

  lemma {:induction false} NotSound(ts: seq<Tok>)
    requires Ended(ts)
    ensures ReadsSoundly(PNot(ts), 3, ts)
    decreases |ts|, 7, 0
  {
    hide PComparison, NoContains, StrTokens, Sound, KeywordText;
    if IsKw(ts[0], KNot) {
      Drop(ts);
      NotSound(ts[1..]);
      var operand := PNot(ts[1..]);
      if operand.Some? && Sound(operand.value.0, 3, ts[1]) {
        SoundUnary(NotOp, operand.value.0, ts[0], ts[1]);
      }
    } else {
      assert NOT_STRING == Str(KeywordText(KNot)) by { KeywordNot(); }
      ComparisonSound(ts);
      var r := PComparison(ts);
      if r.Some? && Sound(r.value.0, 4, ts[0]) {
        SoundAtNegation(r.value.0, ts[0]);
      }
    }
  }

  lemma {:induction false} ComparisonSound(ts: seq<Tok>)
    requires Ended(ts)
    ensures ReadsSoundly(PComparison(ts), 4, ts)
    decreases |ts|, 6, 1
  {
    hide PAdd, CompareWith, Sound, Strings, NoContains, StrTokens;
    AddSound(ts);
    var left := PAdd(ts);
    if left.Some? {
      CompareSound(left.value.0, left.value.1, ts[0]);
    }
  }

  lemma SoundMembership(item: Expr, collection: Expr, first: Tok, second: Tok)
    requires Sound(item, 5, first) && Sound(collection, 5, second)
    ensures Sound(Membership(item, collection, false), 4, first)
  {
    var e := Membership(item, collection, false);
    assert Bare(e)[0] == Print(item, 5)[0];
    assert CleanParts(e) && Print(e, 4) == Bare(e);
    hide CleanParts, Bare, Print;
  }

  // What one comparison or membership makes of a left operand.
  ghost predicate ComparesSoundly(r: Reading, left: Expr, ts: seq<Tok>, first: Tok) {
    r.Some? ==> var (e, rest) := r.value;
      Accounts(Strings(left), ts, Strings(e), rest)
      && (Balanced(Strings(left), ts, Strings(e), rest) && Sound(left, 5, first) ==> Sound(e, 4, first))
  }

  // What a second operand is worth is paid for behind the token between.
  lemma Spend(held: nat, ts: seq<Tok>, worth: nat, rest: seq<Tok>)
    requires ts != [] && Accounts(0, ts[1..], worth, rest)
    ensures Accounts(held, ts, held + worth, rest)
    ensures Balanced(held, ts, held + worth, rest) ==> Balanced(0, ts[1..], worth, rest) && !ts[0].Str?
    ensures Balanced(held, ts, held + worth, rest) ==> NoContains(ts)
  {
    hide NoContains, StrTokens;
    Drop(ts);
  }

  lemma OperandsSound(left: Expr, ts: seq<Tok>, first: Tok, right: Expr, rest: seq<Tok>, e: Expr)
    requires Ended(ts) && |ts| > 1 && ReadsSoundly(Some((right, rest)), 5, ts[1..])
    requires Strings(e) == Strings(left) + Strings(right)
    requires NoContains(ts) && !ts[0].Str? && Sound(left, 5, first) && Sound(right, 5, ts[1]) ==> Sound(e, 4, first)
    ensures ComparesSoundly(Some((e, rest)), left, ts, first)
  {
    hide Sound, StrTokens, Strings, NoContains, Accounts, Balanced;
    Spend(Strings(left), ts, Strings(right), rest);
  }

  lemma ContainsSound(left: Expr, ts: seq<Tok>, first: Tok)
    requires Ended(ts) && !IsKw(ts[0], KIn) && IsKw(ts[0], KContains)
    requires ReadsSoundly(PAdd(ts[1..]), 5, ts[1..])
    ensures ComparesSoundly(CompareWith(left, ts), left, ts, first)
  {
    hide PAdd, Sound, StrTokens, KeywordText, ComparesSoundly, ReadsSoundly;
    var right := PAdd(ts[1..]);
    if right.Some? {
      OperandsSound(left, ts, first, right.value.0, right.value.1, Membership(right.value.0, left, false));
    } else {
      FailureCompares(left, ts, first);
    }
  }

  lemma FailureCompares(left: Expr, ts: seq<Tok>, first: Tok)
    ensures ComparesSoundly(None, left, ts, first)
  {
  }

  lemma InSound(left: Expr, ts: seq<Tok>, first: Tok)
    requires Ended(ts) && IsKw(ts[0], KIn)
    requires ReadsSoundly(PAdd(ts[1..]), 5, ts[1..])
    ensures ComparesSoundly(CompareWith(left, ts), left, ts, first)
  {
    hide PAdd, Sound, StrTokens, KeywordText, NoContains, ComparesSoundly, ReadsSoundly;
    var right := PAdd(ts[1..]);
    if right.Some? {
      if Sound(left, 5, first) && Sound(right.value.0, 5, ts[1]) {
        SoundMembership(left, right.value.0, first, ts[1]);
      }
      OperandsSound(left, ts, first, right.value.0, right.value.1, Membership(left, right.value.0, false));
    } else {
      FailureCompares(left, ts, first);
    }
  }

  lemma OperatorSound(left: Expr, ts: seq<Tok>, first: Tok)
    requires Ended(ts) && !IsKw(ts[0], KIn) && !IsKw(ts[0], KContains) && ComparisonOp(ts[0]).Some?
    requires ReadsSoundly(PAdd(ts[1..]), 5, ts[1..])
    ensures ComparesSoundly(CompareWith(left, ts), left, ts, first)
  {
    hide PAdd, Sound, StrTokens, KeywordText, NoContains, ComparesSoundly, ReadsSoundly;
    var op := ComparisonOp(ts[0]).value;
    var right := PAdd(ts[1..]);
    if right.Some? {
      if Sound(left, 5, first) && Sound(right.value.0, 5, ts[1]) {
        SoundBinary(op, left, right.value.0, first, ts[1]);
      }
      OperandsSound(left, ts, first, right.value.0, right.value.1, Binary(op, left, right.value.0));
    } else {
      FailureCompares(left, ts, first);
    }
  }

  lemma {:induction false} CompareSound(left: Expr, ts: seq<Tok>, first: Tok)
    requires Ended(ts)
    ensures ComparesSoundly(CompareWith(left, ts), left, ts, first)
    decreases |ts|, 6, 0
  {
    hide PAdd, Sound, StrTokens, Strings, KeywordText, NoContains;
    if IsKw(ts[0], KIn) || IsKw(ts[0], KContains) || ComparisonOp(ts[0]).Some? {
      AddSound(ts[1..]);
      if !IsKw(ts[0], KIn) && IsKw(ts[0], KContains) {
        ContainsSound(left, ts, first);
      } else if IsKw(ts[0], KIn) {
        InSound(left, ts, first);
      } else {
        OperatorSound(left, ts, first);
      }
    } else if Sound(left, 5, first) {
      SoundOuter(left, 4, first);
    }
  }

  lemma {:induction false} AddSound(ts: seq<Tok>)
    requires Ended(ts)
    ensures ReadsSoundly(PAdd(ts), 5, ts)
    decreases |ts|, 5, 0
  {
    hide PMul, AddLoop, Sound, Strings, NoContains, StrTokens;
    MulSound(ts);
    var left := PMul(ts);
    if left.Some? {
      AddLoopSound(left.value.0, left.value.1, ts[0]);
      if Sound(left.value.0, 6, ts[0]) {
        SoundOuter(left.value.0, 5, ts[0]);
      }
    }
  }

  lemma {:induction false} AddLoopSound(left: Expr, ts: seq<Tok>, first: Tok)
    requires Ended(ts)
    ensures CarriesSoundly(AddLoop(left, ts), 5, left, ts, first)
    decreases |ts|, 10, 0
  {
    hide PMul, Sound, NoContains, StrTokens;
    if AdditiveOp(ts[0]).Some? {
      Drop(ts);
      MulSound(ts[1..]);
      var right := PMul(ts[1..]);
      if right.Some? {
        var op := AdditiveOp(ts[0]).value;
        AddLoopSound(Binary(op, left, right.value.0), right.value.1, first);
        if Sound(left, 5, first) && Sound(right.value.0, 6, ts[1]) {
          SoundBinary(op, left, right.value.0, first, ts[1]);
        }
      }
    }
  }

  lemma {:induction false} MulSound(ts: seq<Tok>)
    requires Ended(ts)
    ensures ReadsSoundly(PMul(ts), 6, ts)
    decreases |ts|, 4, 0
  {
    hide PUnary, MulLoop, Sound, Strings, NoContains, StrTokens;
    UnarySound(ts);
    var left := PUnary(ts);
    if left.Some? {
      MulLoopSound(left.value.0, left.value.1, ts[0]);
      if Sound(left.value.0, 7, ts[0]) {
        SoundOuter(left.value.0, 6, ts[0]);
      }
    }
  }

  lemma {:induction false} MulLoopSound(left: Expr, ts: seq<Tok>, first: Tok)
    requires Ended(ts)
    ensures CarriesSoundly(MulLoop(left, ts), 6, left, ts, first)
    decreases |ts|, 10, 0
  {
    hide PUnary, Sound, NoContains, StrTokens;
    if MultiplicativeOp(ts[0]).Some? {
      Drop(ts);
      UnarySound(ts[1..]);
      var right := PUnary(ts[1..]);
      if right.Some? {
        var op := MultiplicativeOp(ts[0]).value;
        MulLoopSound(Binary(op, left, right.value.0), right.value.1, first);
        if Sound(left, 6, first) && Sound(right.value.0, 7, ts[1]) {
          SoundBinary(op, left, right.value.0, first, ts[1]);
        }
      }
    }
  }

  lemma {:induction false} UnarySound(ts: seq<Tok>)
    requires Ended(ts)
    ensures ReadsSoundly(PUnary(ts), 7, ts)
    decreases |ts|, 3, 0
  {
    hide PPrimary, NoContains, StrTokens, Sound;
    if ts[0] == OpTok(Minus) || ts[0] == OpTok(Plus) {
      Drop(ts);
      UnarySound(ts[1..]);
      var operand := PUnary(ts[1..]);
      if operand.Some? && Sound(operand.value.0, 7, ts[1]) {
        SoundUnary(Neg, operand.value.0, ts[0], ts[1]);
        SoundUnary(Pos, operand.value.0, ts[0], ts[1]);
      }
    } else {
      PrimarySound(ts);
      var r := PPrimary(ts);
      if r.Some? && Sound(r.value.0, 8, ts[0]) {
        SoundOuter(r.value.0, 7, ts[0]);
      }
    }
  }

  lemma {:induction false} PrimarySound(ts: seq<Tok>)
    requires Ended(ts)
    ensures ReadsSoundly(PPrimary(ts), 8, ts)
    decreases |ts|, 2, 0
  {
    hide POr, PConditional, PCollectionPred, PAtom, NoContains, StrTokens;
    Drop(ts);
    if IsKw(ts[0], KIf) {
      ConditionalSound(ts[1..]);
    } else if ts[0] == Kw(KAll) || ts[0] == Kw(KAny) {
      CollectionPredSound(if ts[0] == Kw(KAll) then All else Any, ts[1..]);
    } else if IsPunct(ts[0], '(') {
      OrSound(ts[1..]);
      var inner := POr(ts[1..]);
      if inner.Some? {
        Drop(inner.value.1);
      }
    } else {
      AtomSound(ts);
    }
  }

  ghost predicate TailSoundly(r: Reading, ts: seq<Tok>)
    requires Ended(ts)
  {
    r.Some? ==> var (e, rest) := r.value;
      Accounts(0, ts, Strings(e), rest) && (Balanced(0, ts, Strings(e), rest) ==> CleanParts(e))
      && Level(e) in {0, 8} && (Level(e) == 8 ==> Bare(e)[0].Id?)
  }

  lemma {:induction false} ConditionalSound(ts: seq<Tok>)
    requires Ended(ts)
    ensures TailSoundly(PConditional(ts), ts)
    decreases |ts|, 10, 0
  {
    hide POr, NoContains, StrTokens, KeywordText, Clean;
    OrSound(ts);
    var test := POr(ts);
    if test.Some? && IsKw(test.value.1[0], KThen) {
      Drop(test.value.1);
      OrSound(test.value.1[1..]);
      var thenBranch := POr(test.value.1[1..]);
      if thenBranch.Some? && IsKw(thenBranch.value.1[0], KElse) {
        Drop(thenBranch.value.1);
        OrSound(thenBranch.value.1[1..]);
      }
    }
  }

  lemma {:induction false} CollectionPredSound(kind: Quantifier, ts: seq<Tok>)
    requires Ended(ts)
    ensures TailSoundly(PCollectionPred(kind, ts), ts)
    decreases |ts|, 10, 0
  {
    hide POr, NoContains, StrTokens, KeywordText, Clean;
    if IsId(ts[0]) && IsKw(ts[1], KIn) {
      Drop(ts);
      Drop(ts[1..]);
      assert ts[1..][1..] == ts[2..];
      OrSound(ts[2..]);
      var domain := POr(ts[2..]);
      if domain.Some? && IsPunct(domain.value.1[0], ':') {
        Drop(domain.value.1);
        OrSound(domain.value.1[1..]);
      }
    }
  }

  lemma NumberIsNoString(raw: string)
    requires NumberValue(raw).Some?
    ensures !NumberValue(raw).value.VStr?
  {
  }

  // A node that stands for itself at the primary level, led by its own token.
  lemma SoundAtom(e: Expr, first: Tok)
    requires CleanParts(e) && Level(e) in {0, 8}
    requires Level(e) == 8 ==> Bare(e)[0] == NOT_STRING ==> first == NOT_STRING
    ensures Sound(e, 8, first)
  {
    hide CleanParts, Bare;
  }

  lemma {:induction false} AtomSound(ts: seq<Tok>)
    requires Ended(ts) && !IsKw(ts[0], KIf) && !IsPunct(ts[0], '(')
    ensures ReadsSoundly(PAtom(ts), 8, ts)
    decreases |ts|, 1, 0
  {
    hide PPathOrCall, NoContains, StrTokens, NumberValue, Sound;
    Drop(ts);
    match ts[0]
    case Id(name) =>
      PathOrCallSound(name, ts[1..]);
      var r := PPathOrCall(name, ts[1..]);
      if r.Some? && CleanParts(r.value.0) {
        SoundAtom(r.value.0, ts[0]);
      }
    case Str(s) =>
      assert "if" == KeywordText(KIf) && s != "if" && s != "(";
      SoundAtom(Literal(VStr(s)), ts[0]);
    case Num(raw) =>
      if NumberValue(raw).Some? {
        NumberIsNoString(raw);
        SoundAtom(Literal(NumberValue(raw).value), ts[0]);
      }
    case _ =>
      SoundAtom(Literal(VBool(true)), ts[0]);
      SoundAtom(Literal(VBool(false)), ts[0]);
      SoundAtom(Literal(VNone), ts[0]);
  }

  lemma {:induction false} PathOrCallSound(name: string, ts: seq<Tok>)
    requires Ended(ts)
    ensures TailSoundly(PPathOrCall(name, ts), ts)
    decreases |ts|, 10, 0
  {
    hide PArgs, PPath, NoContains, StrTokens, Clean;
    Drop(ts);
    if IsPunct(ts[0], '(') {
      if ts[1] == Punct(')') {
        assert AllStrings([]) == 0;
        Drop(ts[1..]);
        assert ts[1..][1..] == ts[2..];
      } else {
        ArgsSound([], ts[1..]);
        var args := PArgs([], ts[1..]);
        if args.Some? {
          Drop(args.value.1);
        }
      }
    } else {
      var root := RootFor(name);
      PathSound(if root.Some? then root.value else State, if root.Some? then [] else [name], ts);
    }
  }

  lemma {:induction false} PathSound(root: PathRoot, parts: seq<string>, ts: seq<Tok>)
    requires Ended(ts)
    ensures TailSoundly(PPath(root, parts, ts), ts)
    decreases |ts|
  {
    hide NoContains, StrTokens;
    if IsPunct(ts[0], '.') && IsId(ts[1]) {
      Drop(ts);
      Drop(ts[1..]);
      assert ts[1..][1..] == ts[2..];
      PathSound(root, parts + [IdText(ts[1])], ts[2..]);
    }
  }

  lemma {:induction false} ArgsSound(sofar: seq<Expr>, ts: seq<Tok>)
    requires Ended(ts)
    ensures var r := PArgs(sofar, ts); r.Some? ==> var (args, rest) := r.value;
      Accounts(AllStrings(sofar), ts, AllStrings(args), rest)
      && (Balanced(AllStrings(sofar), ts, AllStrings(args), rest) && (forall a :: a in sofar ==> Clean(a, 0))
          ==> forall a :: a in args ==> Clean(a, 0))
    decreases |ts|, 10, 0
  {
    hide POr, NoContains, StrTokens, Clean, Strings, AllStrings;
    OrSound(ts);
    var arg := POr(ts);
    if arg.Some? {
      AllStringsAdd(sofar, arg.value.0);
      if IsPunct(arg.value.1[0], ',') {
        Drop(arg.value.1);
        ArgsSound(sofar + [arg.value.0], arg.value.1[1..]);
      }
    }
  }

  // ----- the printer writes each string literal once, and never `contains`

  ghost predicate Paid(ts: seq<Tok>, worth: nat) { StrTokens(ts) == worth && NoContains(ts) }

  lemma PaidTogether(a: seq<Tok>, b: seq<Tok>, x: nat, y: nat)
    requires Paid(a, x) && Paid(b, y)
    ensures Paid(a + b, x + y)
  {
    StrTokensAdd(a, b);
  }

  lemma PaidNothing(t: Tok)
    requires !t.Str? && t != Kw(KContains)
    ensures Paid([t], 0)
  {
    assert [t][1..] == [];
  }

  lemma {:induction false} BareAccounts(e: Expr)
    requires Writable(e)
    ensures Paid(Bare(e), Strings(e))
    decreases e, 0
  {
    hide ValidName, Paid, Print;
    match e
    case Literal(value) =>
      LiteralAccounts(value);
    case PathRef(root, parts) =>
      PathAccounts(parts);
      PaidNothing(Id(RootText(root)));
      PaidTogether([Id(RootText(root))], PathTokens(parts), 0, 0);
    case Unary(uop, operand) =>
      var level := if uop.NotOp? then 3 else 7;
      var prefix := if uop.NotOp? then Kw(KNot) else if uop.Neg? then OpTok(Minus) else OpTok(Plus);
      PrintAccounts(operand, level);
      PaidNothing(prefix);
      PaidTogether([prefix], Print(operand, level), 0, Strings(operand));
    case Binary(op, left, right) =>
      PrintAccounts(left, LeftLevel(op));
      PrintAccounts(right, RightLevel(op));
      Around(Print(left, LeftLevel(op)), OpToken(op), Print(right, RightLevel(op)), Strings(left), Strings(right));
    case Membership(item, collection, _) =>
      PrintAccounts(item, 5);
      PrintAccounts(collection, 5);
      Around(Print(item, 5), Kw(KIn), Print(collection, 5), Strings(item), Strings(collection));
    case Conditional(test, thenBranch, elseBranch) =>
      PrintAccounts(test, 0);
      PrintAccounts(thenBranch, 0);
      PrintAccounts(elseBranch, 0);
      ConditionalAccounts(Print(test, 0), Print(thenBranch, 0), Print(elseBranch, 0),
                          Strings(test), Strings(thenBranch), Strings(elseBranch));
    case CollectionPred(kind, variable, domain, body, _) =>
      PrintAccounts(domain, 0);
      PrintAccounts(body, 0);
      PredicateAccounts(kind, variable, Print(domain, 0), Print(body, 0), Strings(domain), Strings(body));
    case Call(name, args) =>
      ArgsAccount(args);
      CallAccounts(name, PrintArgs(args), AllStrings(args));
  }

  lemma ConditionalAccounts(test: seq<Tok>, thenBranch: seq<Tok>, elseBranch: seq<Tok>, x: nat, y: nat, z: nat)
    requires Paid(test, x) && Paid(thenBranch, y) && Paid(elseBranch, z)
    ensures Paid([Kw(KIf)] + test + [Kw(KThen)] + thenBranch + [Kw(KElse)] + elseBranch, x + y + z)
  {
    hide Paid;
    PaidNothing(Kw(KIf));
    PaidTogether([Kw(KIf)], test, 0, x);
    Around([Kw(KIf)] + test, Kw(KThen), thenBranch, x, y);
    Around([Kw(KIf)] + test + [Kw(KThen)] + thenBranch, Kw(KElse), elseBranch, x + y, z);
  }

  lemma PredicateAccounts(kind: Quantifier, variable: string, domain: seq<Tok>, body: seq<Tok>, x: nat, y: nat)
    requires Paid(domain, x) && Paid(body, y)
    ensures Paid([Kw(if kind.All? then KAll else KAny), Id(variable), Kw(KIn)] + domain + [Punct(':')] + body, x + y)
  {
    hide Paid;
    var k := Kw(if kind.All? then KAll else KAny);
    PaidNothing(k);
    PaidNothing(Id(variable));
    PaidNothing(Kw(KIn));
    PaidTogether([k], [Id(variable)], 0, 0);
    PaidTogether([k] + [Id(variable)], [Kw(KIn)], 0, 0);
    var head := [k, Id(variable), Kw(KIn)];
    assert [k] + [Id(variable)] + [Kw(KIn)] == head;
    PaidTogether(head, domain, 0, x);
    Around(head + domain, Punct(':'), body, x, y);
  }

  lemma CallAccounts(name: string, args: seq<Tok>, x: nat)
    requires Paid(args, x)
    ensures Paid([Id(name), Punct('(')] + args + [Punct(')')], x)
  {
    hide Paid;
    PaidNothing(Id(name));
    PaidNothing(Punct('('));
    PaidNothing(Punct(')'));
    PaidTogether([Id(name)], [Punct('(')], 0, 0);
    var head := [Id(name), Punct('(')];
    assert [Id(name)] + [Punct('(')] == head;
    PaidTogether(head, args, 0, x);
    PaidTogether(head + args, [Punct(')')], x, 0);
  }

  lemma Around(a: seq<Tok>, t: Tok, b: seq<Tok>, x: nat, y: nat)
    requires Paid(a, x) && Paid(b, y) && !t.Str? && t != Kw(KContains)
    ensures Paid(a + [t] + b, x + y)
  {
    PaidNothing(t);
    PaidTogether(a, [t], x, 0);
    PaidTogether(a + [t], b, x, y);
  }

  lemma LiteralAccounts(value: Value)
    ensures Paid(Bare(Literal(value)), Strings(Literal(value)))
  {
    var t := LiteralToken(value);
    assert Bare(Literal(value)) == [t] && [t][1..] == [];
    assert t.Str? <==> value.VStr?;
    assert t != Kw(KContains);
    hide Decimal, LiteralToken;
    assert StrTokens([t]) == (if t.Str? then 1 else 0) + StrTokens([t][1..]);
  }

  lemma {:induction false} PathAccounts(parts: seq<string>)
    ensures Paid(PathTokens(parts), 0)
  {
    hide Paid;
    if parts != [] {
      PathAccounts(parts[1..]);
      PaidNothing(Punct('.'));
      PaidNothing(Id(parts[0]));
      PaidTogether([Punct('.')], [Id(parts[0])], 0, 0);
      assert [Punct('.')] + [Id(parts[0])] == [Punct('.'), Id(parts[0])];
      PaidTogether([Punct('.'), Id(parts[0])], PathTokens(parts[1..]), 0, 0);
    } else {
      PaidEmpty();
    }
  }

  lemma PaidEmpty()
    ensures Paid([], 0)
  {
  }

  lemma {:induction false} PrintAccounts(e: Expr, level: nat)
    requires Writable(e)
    ensures Paid(Print(e, level), Strings(e))
    decreases e, 1
  {
    hide Paid, Bare, Writable, Strings;
    BareAccounts(e);
    if Level(e) < level {
      PaidNothing(Punct('('));
      PaidNothing(Punct(')'));
      PaidTogether([Punct('(')], Bare(e), 0, Strings(e));
      PaidTogether([Punct('(')] + Bare(e), [Punct(')')], Strings(e), 0);
    }
  }

  lemma {:induction false} ArgsAccount(args: seq<Expr>)
    requires forall a :: a in args ==> Writable(a)
    ensures Paid(PrintArgs(args), AllStrings(args))
    decreases args, 2
  {
    hide Paid, Print, Writable, Strings;
    if args == [] {
      PaidEmpty();
    } else {
      PrintAccounts(args[0], 0);
      ArgsAccount(args[1..]);
      if |args| == 1 {
        PaidEmpty();
        assert Print(args[0], 0) + [] == Print(args[0], 0);
        assert AllStrings(args[1..]) == 0;
      } else {
        Around(Print(args[0], 0), Punct(','), PrintArgs(args[1..]), Strings(args[0]), AllStrings(args[1..]));
        assert Print(args[0], 0) + ([Punct(',')] + PrintArgs(args[1..])) == Print(args[0], 0) + [Punct(',')] + PrintArgs(args[1..]);
      }
    }
  }

  // ----- the round trip, exactly

  // A writable tree survives printing and parsing if and only if no string literal of it can pass for syntax.
  lemma RoundTripExactly(e: Expr)
    requires Writable(e)
    ensures ParseText(Written(e)) == Ok(e) <==> Clean(e, 0)
  {
    if Clean(e, 0) {
      TextRoundTrip(e);
    }
    if ParseText(Written(e)) == Ok(e) {
      PrintWrites(e, 0);
      AllRead(Print(e, 0));
      TightStrips(Written(e));
      ReparseIsClean(e);
    }
  }

  lemma ReparseIsClean(e: Expr)
    requires Writable(e) && ParseTokens(Print(e, 0) + [Eof]) == Some(e)
    ensures Clean(e, 0)
  {
    var ts := Print(e, 0) + [Eof];
    PrintAccounts(e, 0);
    PaidNothing(Eof);
    PaidTogether(Print(e, 0), [Eof], Strings(e), 0);
    OrSound(ts);
  }

  // The literal alone: its quotes do not protect it.
  lemma QuotedNotIsNegation()
    ensures Writable(Literal(VStr("not"))) && ParseText(Written(Literal(VStr("not")))) != Ok(Literal(VStr("not")))
  {
    RoundTripExactly(Literal(VStr("not")));
  }
}
