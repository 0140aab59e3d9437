/** Bare names: wherever one stands for a value, the parser reads it as that name under `state`. */
module ExprNames {
  import opened Wrappers
  import opened Text
  import opened ExprAst
  import opened ExprLexer
  import opened ExprGrammar
  import opened ExprPrinter
  import opened ExprParser
  import opened ExprText

  // ----- writing the root in front

  // A token that takes the identifier behind it for itself: a segment's dot, or the quantifier of a variable.
  predicate Claims(t: Tok) { IsPunct(t, '.') || t == Kw(KAll) || t == Kw(KAny) }

  // A name that is neither a root nor called.
  predicate IsBare(ts: seq<Tok>) {
    |ts| > 1 && ts[0].Id? && RootFor(ts[0].name).None? && !IsPunct(ts[1], '(')
  }

  // One word for null.
  function Plain(t: Tok): Tok { if t == Kw(KNone) then Kw(KNull) else t }

  // Every bare name with `state.` in front, and `null` for `none`.
  function Expand(claimed: bool, ts: seq<Tok>): seq<Tok>
    decreases |ts|
  {
    if ts == [] then []
    else (if !claimed && IsBare(ts) then [Id("state"), Punct('.'), ts[0]] else [Plain(ts[0])])
         + Expand(Claims(ts[0]), ts[1..])
  }

  lemma {:induction false} ExpandEnds(claimed: bool, ts: seq<Tok>)
    requires Ended(ts)
    ensures Ended(Expand(claimed, ts))
    decreases |ts|
  {
    hide Claims, IsBare;
    if |ts| > 1 {
      ExpandEnds(Claims(ts[0]), ts[1..]);
    } else {
      assert ts[1..] == [] && ts[0] == Eof;
      BareNeedsMore(ts);
    }
  }

  lemma BareNeedsMore(ts: seq<Tok>)
    requires |ts| == 1
    ensures !IsBare(ts)
  {
  }

  // The same test passes on both sides.
  ghost predicate LooksLike(t: Tok, u: Tok) {
    && t.Id? == u.Id? && (!t.Id? ==> u == Plain(t))
    && (t != Kw(KNone) && !t.Id? ==> u == t)
  }

  lemma Peek(claimed: bool, ts: seq<Tok>)
    requires Ended(ts)
    ensures Ended(Expand(claimed, ts)) && LooksLike(ts[0], Expand(claimed, ts)[0])
    ensures !ts[0].Id? ==> Expand(claimed, ts)[1..] == Expand(Claims(ts[0]), ts[1..])
    ensures claimed && ts[0].Id? ==>
      Expand(claimed, ts)[0] == ts[0] && Expand(claimed, ts)[1..] == Expand(false, ts[1..])
  {
    ExpandEnds(claimed, ts);
    hide IsPunct, IsBare;
    IdClaimsNothing(ts[0]);
    IdIsBare(ts);
    hide Claims;
  }

  lemma IdClaimsNothing(t: Tok)
    ensures t.Id? ==> !Claims(t)
  {
  }

  lemma IdIsBare(ts: seq<Tok>)
    ensures IsBare(ts) ==> ts != [] && ts[0].Id?
  {
  }

  // Tests of keywords, brackets and operators do not tell the two apart.
  lemma SameTests(t: Tok, u: Tok, k: Keyword, c: char)
    requires LooksLike(t, u) && k != KNone && k != KNull
    ensures IsKw(t, k) <==> IsKw(u, k)
    ensures IsPunct(t, c) <==> IsPunct(u, c)
    ensures IsKw(t, k) || IsPunct(t, c) ==> !t.Id? && u == t
    ensures IsKw(t, k) && k != KAll && k != KAny ==> !Claims(t)
    ensures ComparisonOp(t) == ComparisonOp(u) && AdditiveOp(t) == AdditiveOp(u) && MultiplicativeOp(t) == MultiplicativeOp(u)
    ensures t.OpTok? ==> !Claims(t) && u == t
    ensures u.OpTok? ==> t == u
  {
    KeywordIsNoDot(k);
    hide KeywordText;
  }

  lemma KeywordIsNoDot(k: Keyword)
    ensures KeywordText(k) != "."
  {
    assert |KeywordText(k)| >= 2;
  }

  // ----- the two readings

  ghost predicate Kin(rest: seq<Tok>, rest': seq<Tok>) {
    Ended(rest) && (rest' == Expand(false, rest) || rest' == Expand(true, rest))
  }

  ghost predicate Alike(r: Reading, r': Reading) {
    r.Some? == r'.Some? && (r.Some? ==> r.value.0 == r'.value.0 && Kin(r.value.1, r'.value.1))
  }

  // What follows a phrase on both sides.
  lemma Behind(rest: seq<Tok>, rest': seq<Tok>) returns (claimed: bool)
    requires Kin(rest, rest')
    ensures Ended(rest) && rest' == Expand(claimed, rest) && Ended(rest')
    ensures LooksLike(rest[0], rest'[0])
    ensures !rest[0].Id? ==> rest'[1..] == Expand(Claims(rest[0]), rest[1..])
  {
    claimed := rest' == Expand(true, rest);
    Peek(claimed, rest);
  }

  lemma KeywordBehind(rest: seq<Tok>, rest': seq<Tok>, k: Keyword)
    requires Kin(rest, rest') && k !in {KNone, KNull, KAll, KAny}
    ensures Ended(rest) && Ended(rest') && (IsKw(rest[0], k) <==> IsKw(rest'[0], k))
    ensures IsKw(rest[0], k) ==> |rest| > 1 && Ended(rest[1..]) && rest'[1..] == Expand(false, rest[1..]) && Ended(rest'[1..])
  {
    hide Expand, Kin, IsKw, Claims, LooksLike;
    var claimed := Behind(rest, rest');
    SameTests(rest[0], rest'[0], k, '(');
    if IsKw(rest[0], k) {
      TokenIsNotLast(rest, k, ')');
      ExpandEnds(false, rest[1..]);
    }
  }

  lemma PunctBehind(rest: seq<Tok>, rest': seq<Tok>, c: char)
    requires Kin(rest, rest') && c != '.'
    ensures Ended(rest) && Ended(rest') && (IsPunct(rest[0], c) <==> IsPunct(rest'[0], c))
    ensures IsPunct(rest[0], c) ==> |rest| > 1 && Ended(rest[1..]) && rest'[1..] == Expand(false, rest[1..]) && Ended(rest'[1..])
  {
    hide Expand, Kin;
    var claimed := Behind(rest, rest');
    SameTests(rest[0], rest'[0], KIn, c);
    if IsPunct(rest[0], c) {
      TokenIsNotLast(rest, KIn, c);
      ExpandEnds(false, rest[1..]);
      assert [c][0] == c && "."[0] == '.';
    }
  }

  lemma TokenIsNotLast(ts: seq<Tok>, k: Keyword, c: char)
    requires Ended(ts)
    ensures IsKw(ts[0], k) || IsPunct(ts[0], c) || ts[0].OpTok? ==> |ts| > 1 && Ended(ts[1..])
  {
  }

  lemma OperatorBehind(rest: seq<Tok>, rest': seq<Tok>)
    requires Kin(rest, rest')
    ensures Ended(rest) && Ended(rest')
    ensures ComparisonOp(rest[0]) == ComparisonOp(rest'[0]) && AdditiveOp(rest[0]) == AdditiveOp(rest'[0])
    ensures MultiplicativeOp(rest[0]) == MultiplicativeOp(rest'[0])
    ensures rest[0].OpTok? == rest'[0].OpTok? && (rest[0].OpTok? ==> rest[0] == rest'[0])
    ensures rest[0].OpTok? ==> |rest| > 1 && Ended(rest[1..]) && rest'[1..] == Expand(false, rest[1..]) && Ended(rest'[1..])
  {
    hide Expand, Kin;
    var claimed := Behind(rest, rest');
    SameTests(rest[0], rest'[0], KIn, '(');
    if rest[0].OpTok? {
      TokenIsNotLast(rest, KIn, '(');
      ExpandEnds(false, rest[1..]);
    }
  }

  lemma Start(claimed: bool, ts: seq<Tok>)
    requires Ended(ts)
    ensures Kin(ts, Expand(claimed, ts)) && Ended(Expand(claimed, ts))
  {
    ExpandEnds(claimed, ts);
  }

  // ----- level by level

  lemma {:induction false} OrAlike(ts: seq<Tok>)
    requires Ended(ts) && Ended(Expand(false, ts))
    ensures Alike(POr(ts), POr(Expand(false, ts)))
    decreases |ts|, 9, 0
  {
    hide PAnd, OrLoop, Expand, Kin;
    AndAlike(ts);
    var left, left' := PAnd(ts), PAnd(Expand(false, ts));
    if left.Some? {
      OrLoopAlike(left.value.0, left.value.1, left'.value.1);
    }
  }

  lemma {:induction false} OrLoopAlike(left: Expr, ts: seq<Tok>, us: seq<Tok>)
    requires Ended(ts) && Ended(us) && Kin(ts, us)
    ensures Alike(OrLoop(left, ts), OrLoop(left, us))
    decreases |ts|, 10, 0
  {
    hide PAnd, Expand, Kin, IsKw;
    KeywordBehind(ts, us, KOr);
    if IsKw(ts[0], KOr) {
      AndAlike(ts[1..]);
      var right, right' := PAnd(ts[1..]), PAnd(us[1..]);
      if right.Some? {
        OrLoopAlike(Binary(Or, left, right.value.0), right.value.1, right'.value.1);
      }
    }
  }

  lemma {:induction false} AndAlike(ts: seq<Tok>)
    requires Ended(ts) && Ended(Expand(false, ts))
    ensures Alike(PAnd(ts), PAnd(Expand(false, ts)))
    decreases |ts|, 8, 0
  {
    hide PNot, AndLoop, Expand, Kin;
    NotAlike(ts);
    var left, left' := PNot(ts), PNot(Expand(false, ts));
    if left.Some? {
      AndLoopAlike(left.value.0, left.value.1, left'.value.1);
    }
  }

  lemma {:induction false} AndLoopAlike(left: Expr, ts: seq<Tok>, us: seq<Tok>)
    requires Ended(ts) && Ended(us) && Kin(ts, us)
    ensures Alike(AndLoop(left, ts), AndLoop(left, us))
    decreases |ts|, 10, 0
  {
    hide PNot, Expand, Kin, IsKw;
    KeywordBehind(ts, us, KAnd);
    if IsKw(ts[0], KAnd) {
      NotAlike(ts[1..]);
      var right, right' := PNot(ts[1..]), PNot(us[1..]);
      if right.Some? {
        AndLoopAlike(Binary(And, left, right.value.0), right.value.1, right'.value.1);
      }
    }
  }

  lemma {:induction false} NotAlike(ts: seq<Tok>)
    requires Ended(ts) && Ended(Expand(false, ts))
    ensures Alike(PNot(ts), PNot(Expand(false, ts)))
    decreases |ts|, 7, 0
  {
    hide PComparison, Expand, Kin, IsKw;
    var us := Expand(false, ts);
    Start(false, ts);
    KeywordBehind(ts, us, KNot);
    if IsKw(ts[0], KNot) {
      NotAlike(ts[1..]);
    } else {
      ComparisonAlike(ts);
    }
  }

  lemma {:induction false} ComparisonAlike(ts: seq<Tok>)
    requires Ended(ts) && Ended(Expand(false, ts))
    ensures Alike(PComparison(ts), PComparison(Expand(false, ts)))
    decreases |ts|, 6, 1
  {
    hide PAdd, CompareWith, Expand, Kin;
    AddAlike(ts);
    var left, left' := PAdd(ts), PAdd(Expand(false, ts));
    if left.Some? {
      CompareAlike(left.value.0, left.value.1, left'.value.1);
    }
  }

  lemma {:induction false} CompareAlike(left: Expr, ts: seq<Tok>, us: seq<Tok>)
    requires Ended(ts) && Ended(us) && Kin(ts, us)
    ensures Alike(CompareWith(left, ts), CompareWith(left, us))
    decreases |ts|, 6, 0
  {
    hide PAdd, Expand, Kin, IsKw, ComparisonOp;
    KeywordBehind(ts, us, KIn);
    KeywordBehind(ts, us, KContains);
    OperatorBehind(ts, us);
    ComparisonIsOp(ts[0]);
    if IsKw(ts[0], KIn) || IsKw(ts[0], KContains) || ComparisonOp(ts[0]).Some? {
      AddAlike(ts[1..]);
    }
  }

  lemma ComparisonIsOp(t: Tok)
    ensures ComparisonOp(t).Some? || AdditiveOp(t).Some? || MultiplicativeOp(t).Some? ==> t.OpTok?
  {
  }

  lemma {:induction false} AddAlike(ts: seq<Tok>)
    requires Ended(ts) && Ended(Expand(false, ts))
    ensures Alike(PAdd(ts), PAdd(Expand(false, ts)))
    decreases |ts|, 5, 0
  {
    hide PMul, AddLoop, Expand, Kin;
    MulAlike(ts);
    var left, left' := PMul(ts), PMul(Expand(false, ts));
    if left.Some? {
      AddLoopAlike(left.value.0, left.value.1, left'.value.1);
    }
  }

  lemma {:induction false} AddLoopAlike(left: Expr, ts: seq<Tok>, us: seq<Tok>)
    requires Ended(ts) && Ended(us) && Kin(ts, us)
    ensures Alike(AddLoop(left, ts), AddLoop(left, us))
    decreases |ts|, 10, 0
  {
    hide PMul, Expand, Kin, AdditiveOp;
    OperatorBehind(ts, us);
    ComparisonIsOp(ts[0]);
    if AdditiveOp(ts[0]).Some? {
      MulAlike(ts[1..]);
      var right, right' := PMul(ts[1..]), PMul(us[1..]);
      if right.Some? {
        AddLoopAlike(Binary(AdditiveOp(ts[0]).value, left, right.value.0), right.value.1, right'.value.1);
      }
    }
  }

  lemma {:induction false} MulAlike(ts: seq<Tok>)
    requires Ended(ts) && Ended(Expand(false, ts))
    ensures Alike(PMul(ts), PMul(Expand(false, ts)))
    decreases |ts|, 4, 0
  {
    hide PUnary, MulLoop, Expand, Kin;
    UnaryAlike(ts);
    var left, left' := PUnary(ts), PUnary(Expand(false, ts));
    if left.Some? {
      MulLoopAlike(left.value.0, left.value.1, left'.value.1);
    }
  }

  lemma {:induction false} MulLoopAlike(left: Expr, ts: seq<Tok>, us: seq<Tok>)
    requires Ended(ts) && Ended(us) && Kin(ts, us)
    ensures Alike(MulLoop(left, ts), MulLoop(left, us))
    decreases |ts|, 10, 0
  {
    hide PUnary, Expand, Kin, MultiplicativeOp;
    OperatorBehind(ts, us);
    ComparisonIsOp(ts[0]);
    if MultiplicativeOp(ts[0]).Some? {
      UnaryAlike(ts[1..]);
      var right, right' := PUnary(ts[1..]), PUnary(us[1..]);
      if right.Some? {
        MulLoopAlike(Binary(MultiplicativeOp(ts[0]).value, left, right.value.0), right.value.1, right'.value.1);
      }
    }
  }

  lemma {:induction false} UnaryAlike(ts: seq<Tok>)
    requires Ended(ts) && Ended(Expand(false, ts))
    ensures Alike(PUnary(ts), PUnary(Expand(false, ts)))
    decreases |ts|, 3, 0
  {
    hide PPrimary, Expand, Kin;
    var us := Expand(false, ts);
    Start(false, ts);
    OperatorBehind(ts, us);
    if ts[0] == OpTok(Minus) || ts[0] == OpTok(Plus) {
      UnaryAlike(ts[1..]);
    } else {
      PrimaryAlike(ts);
    }
  }

  lemma QuantifierBehind(ts: seq<Tok>)
    requires Ended(ts)
    ensures Ended(Expand(false, ts))
    ensures forall k :: k in {KAll, KAny} ==> (ts[0] == Kw(k) <==> Expand(false, ts)[0] == Kw(k))
    ensures ts[0] in {Kw(KAll), Kw(KAny)} ==>
      |ts| > 1 && Ended(ts[1..]) && Expand(false, ts)[1..] == Expand(true, ts[1..]) && Ended(Expand(true, ts[1..]))
  {
    hide Expand;
    Peek(false, ts);
    if ts[0] in {Kw(KAll), Kw(KAny)} {
      ExpandEnds(true, ts[1..]);
    }
  }

  lemma {:induction false} PrimaryAlike(ts: seq<Tok>)
    requires Ended(ts) && Ended(Expand(false, ts))
    ensures Alike(PPrimary(ts), PPrimary(Expand(false, ts)))
    decreases |ts|, 2, 0
  {
    hide POr, PConditional, PCollectionPred, PAtom, Expand, Kin, IsKw, IsPunct;
    var us := Expand(false, ts);
    Start(false, ts);
    KeywordBehind(ts, us, KIf);
    QuantifierBehind(ts);
    PunctBehind(ts, us, '(');
    if IsKw(ts[0], KIf) {
      ConditionalAlike(ts[1..]);
    } else if ts[0] == Kw(KAll) || ts[0] == Kw(KAny) {
      CollectionPredAlike(if ts[0] == Kw(KAll) then All else Any, ts[1..]);
    } else if IsPunct(ts[0], '(') {
      OrAlike(ts[1..]);
      var inner, inner' := POr(ts[1..]), POr(us[1..]);
      if inner.Some? {
        PunctBehind(inner.value.1, inner'.value.1, ')');
        if IsPunct(inner.value.1[0], ')') {
          Start(false, inner.value.1[1..]);
        }
      }
    } else {
      AtomAlike(ts);
    }
  }

  lemma {:induction false} ConditionalAlike(ts: seq<Tok>)
    requires Ended(ts) && Ended(Expand(false, ts))
    ensures Alike(PConditional(ts), PConditional(Expand(false, ts)))
    decreases |ts|, 10, 0
  {
    hide POr, Expand, Kin, IsKw;
    OrAlike(ts);
    var test, test' := POr(ts), POr(Expand(false, ts));
    if test.Some? {
      KeywordBehind(test.value.1, test'.value.1, KThen);
      if IsKw(test.value.1[0], KThen) {
        OrAlike(test.value.1[1..]);
        var yes, yes' := POr(test.value.1[1..]), POr(test'.value.1[1..]);
        if yes.Some? {
          KeywordBehind(yes.value.1, yes'.value.1, KElse);
          if IsKw(yes.value.1[0], KElse) {
            OrAlike(yes.value.1[1..]);
          }
        }
      }
    }
  }

  // The variable is claimed, so it stays as it is.
  lemma VariableBehind(ts: seq<Tok>)
    requires Ended(ts)
    ensures var us := Expand(true, ts);
      && Ended(us) && (IsId(ts[0]) <==> IsId(us[0]))
      && (IsId(ts[0]) ==> us[0] == ts[0] && |ts| > 1 && Ended(ts[1..]) && us[1..] == Expand(false, ts[1..])
                          && Ended(us[1..]) && Kin(ts[1..], us[1..]))
  {
    hide Expand;
    Peek(true, ts);
    if IsId(ts[0]) {
      ExpandEnds(false, ts[1..]);
    }
  }

  lemma {:induction false} CollectionPredAlike(kind: Quantifier, ts: seq<Tok>)
    requires Ended(ts) && Ended(Expand(true, ts))
    ensures Alike(PCollectionPred(kind, ts), PCollectionPred(kind, Expand(true, ts)))
    decreases |ts|, 10, 0
  {
    hide POr, Expand, Kin, IsKw, IsId, IsPunct;
    var us := Expand(true, ts);
    VariableBehind(ts);
    if IsId(ts[0]) {
      KeywordBehind(ts[1..], us[1..], KIn);
      if IsKw(ts[1], KIn) {
        assert ts[1..][1..] == ts[2..] && us[1..][1..] == us[2..];
        OrAlike(ts[2..]);
        var domain, domain' := POr(ts[2..]), POr(us[2..]);
        if domain.Some? {
          PunctBehind(domain.value.1, domain'.value.1, ':');
          if IsPunct(domain.value.1[0], ':') {
            OrAlike(domain.value.1[1..]);
          }
        }
      }
    }
  }

  lemma LiteralAlike(ts: seq<Tok>)
    requires Ended(ts) && !ts[0].Id?
    ensures Ended(Expand(false, ts)) && Alike(PAtom(ts), PAtom(Expand(false, ts)))
  {
    hide Expand, NumberValue, Claims;
    Peek(false, ts);
    if |ts| > 1 {
      Start(Claims(ts[0]), ts[1..]);
    }
  }

  lemma {:induction false} AtomAlike(ts: seq<Tok>)
    requires Ended(ts) && Ended(Expand(false, ts))
    ensures Alike(PAtom(ts), PAtom(Expand(false, ts)))
    decreases |ts|, 1, 0
  {
    hide Expand, Kin, PPathOrCall;
    if ts[0].Id? {
      NameAlike(ts);
    } else {
      LiteralAlike(ts);
    }
  }

  // What stands for a name, and what follows.
  lemma NameExpands(ts: seq<Tok>)
    requires Ended(ts) && ts[0].Id?
    ensures |ts| > 1 && Ended(ts[1..]) && Ended(Expand(false, ts[1..]))
    ensures !IsBare(ts) ==> Expand(false, ts) == [ts[0]] + Expand(false, ts[1..])
    ensures IsBare(ts) ==> Expand(false, ts) == [Id("state"), Punct('.'), ts[0]] + Expand(false, ts[1..])
  {
    ExpandEnds(false, ts[1..]);
    IdClaimsNothing(ts[0]);
    hide IsBare, Claims;
  }

  // `state` and a dot before a name are read into the path.
  lemma RootIsState(name: string, us: seq<Tok>)
    requires Ended(us)
    ensures Ended([Id("state"), Punct('.'), Id(name)] + us)
    ensures PAtom([Id("state"), Punct('.'), Id(name)] + us) == PPath(State, [name], us)
  {
    var ts := [Id("state"), Punct('.'), Id(name)] + us;
    var tail := [Punct('.'), Id(name)] + us;
    assert ts[1..] == tail && tail[2..] == us;
    assert RootFor("state") == Some(State);
    assert [] + [name] == [name];
    hide PArgs;
  }

  lemma {:induction false} NameAlike(ts: seq<Tok>)
    requires Ended(ts) && ts[0].Id?
    ensures Ended(Expand(false, ts)) && Alike(PAtom(ts), PAtom(Expand(false, ts)))
    decreases |ts|, 0, 0
  {
    hide Expand, Kin, PPath, PArgs, PPathOrCall, IsPunct;
    var name, rest := ts[0].name, ts[1..];
    NameExpands(ts);
    ExpandEnds(false, ts);
    var us := Expand(false, rest);
    Start(false, rest);
    PunctBehind(rest, us, '(');
    if IsPunct(rest[0], '(') {
      CallAlike(name, rest);
    } else {
      NotCalled(name, rest);
      NotCalled(name, us);
      if RootFor(name).Some? {
        PathAlike(RootFor(name).value, [], rest, us);
      } else {
        RootIsState(name, us);
        PathAlike(State, [name], rest, us);
      }
    }
  }

  lemma NotCalled(name: string, ts: seq<Tok>)
    requires Ended(ts) && !IsPunct(ts[0], '(')
    ensures PPathOrCall(name, ts)
         == PPath(if RootFor(name).Some? then RootFor(name).value else State, if RootFor(name).Some? then [] else [name], ts)
  {
    hide PPath, RootFor;
  }

  lemma {:induction false} CallAlike(name: string, ts: seq<Tok>)
    requires Ended(ts) && IsPunct(ts[0], '(') && Ended(Expand(false, ts))
    ensures Alike(PPathOrCall(name, ts), PPathOrCall(name, Expand(false, ts)))
    decreases |ts|, 11, 0
  {
    hide Expand, Kin, PPath, PArgs, IsPunct;
    var us := Expand(false, ts);
    Start(false, ts);
    PunctBehind(ts, us, '(');
    Start(false, ts[1..]);
    PunctBehind(ts[1..], us[1..], ')');
    ClosingBehind(ts[1..], us[1..]);
    if ts[1] == Punct(')') {
      assert ts[1..][1..] == ts[2..] && us[1..][1..] == us[2..];
      Start(false, ts[2..]);
    } else {
      ArgsAlike([], ts[1..]);
      var args, args' := PArgs([], ts[1..]), PArgs([], us[1..]);
      if args.Some? {
        PunctBehind(args.value.1, args'.value.1, ')');
        if IsPunct(args.value.1[0], ')') {
          Start(false, args.value.1[1..]);
        }
      }
    }
  }

  // A closing bracket itself, and not a literal that spells one.
  lemma ClosingBehind(ts: seq<Tok>, us: seq<Tok>)
    requires Kin(ts, us)
    ensures Ended(us) && (ts[0] == Punct(')') <==> us[0] == Punct(')'))
    ensures ts[0] == Punct(')') ==> IsPunct(ts[0], ')')
  {
    hide Expand, Kin;
    var claimed := Behind(ts, us);
  }

  ghost predicate ArgsMatch(r: Option<(seq<Expr>, seq<Tok>)>, r': Option<(seq<Expr>, seq<Tok>)>) {
    r.Some? == r'.Some? && (r.Some? ==> r.value.0 == r'.value.0 && Kin(r.value.1, r'.value.1))
  }

  lemma {:induction false} ArgsAlike(sofar: seq<Expr>, ts: seq<Tok>)
    requires Ended(ts) && Ended(Expand(false, ts))
    ensures ArgsMatch(PArgs(sofar, ts), PArgs(sofar, Expand(false, ts)))
    decreases |ts|, 10, 0
  {
    hide POr, Expand, Kin, IsPunct;
    OrAlike(ts);
    var arg, arg' := POr(ts), POr(Expand(false, ts));
    if arg.Some? {
      PunctBehind(arg.value.1, arg'.value.1, ',');
      if IsPunct(arg.value.1[0], ',') {
        ArgsAlike(sofar + [arg.value.0], arg.value.1[1..]);
      }
    }
  }

  // A dot, and the segment it claims.
  lemma SegmentBehind(ts: seq<Tok>, us: seq<Tok>)
    requires Kin(ts, us)
    ensures Ended(us) && (IsPunct(ts[0], '.') <==> IsPunct(us[0], '.'))
    ensures IsPunct(ts[0], '.') ==> |ts| > 1 && |us| > 1 && (IsId(ts[1]) <==> IsId(us[1]))
    ensures IsPunct(ts[0], '.') && IsId(ts[1]) ==>
      us[1] == ts[1] && |ts| > 2 && Ended(ts[2..]) && us[2..] == Expand(false, ts[2..]) && Ended(us[2..])
  {
    hide Expand, Kin, IsPunct, IsId;
    var claimed := Behind(ts, us);
    SameTests(ts[0], us[0], KIn, '.');
    if IsPunct(ts[0], '.') {
      TokenIsNotLast(ts, KIn, '.');
      DotClaims(ts[0]);
      VariableBehind(ts[1..]);
      if IsId(ts[1]) {
        assert ts[1..][1..] == ts[2..] && us[1..][1..] == us[2..];
      }
    }
  }

  lemma DotClaims(t: Tok)
    requires IsPunct(t, '.')
    ensures Claims(t)
  {
  }

  lemma {:induction false} PathAlike(root: PathRoot, parts: seq<string>, ts: seq<Tok>, us: seq<Tok>)
    requires Ended(ts) && Ended(us) && Kin(ts, us)
    ensures Alike(PPath(root, parts, ts), PPath(root, parts, us))
    decreases |ts|
  {
    hide Expand, Kin, IsPunct, IsId;
    SegmentBehind(ts, us);
    if IsPunct(ts[0], '.') && IsId(ts[1]) {
      Start(false, ts[2..]);
      PathAlike(root, parts + [IdText(ts[1])], ts[2..], us[2..]);
    }
  }

  // ----- the theorems

  // Writing `state.` before every bare name, and `null` for `none`, changes no reading.
  lemma BareNamesAreState(ts: seq<Tok>)
    requires Ended(ts)
    ensures Ended(Expand(false, ts)) && ParseTokens(Expand(false, ts)) == ParseTokens(ts)
  {
    hide POr, Expand, Kin;
    ExpandEnds(false, ts);
    OrAlike(ts);
    var r := POr(ts);
    if r.Some? {
      var claimed := Behind(r.value.1, POr(Expand(false, ts)).value.1);
    }
  }
}
