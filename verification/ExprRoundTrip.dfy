/** Parsing what the printer wrote gives the tree back, through every grammar level. */
module ExprRoundTrip {
  import opened Wrappers
  import opened Text
  import opened ExprAst
  import opened ExprLexer
  import opened ExprGrammar
  import opened ExprPrinter

  // Reading at a level, and carrying on at a level with a first operand in hand.
  function ReadAt(level: nat, ts: seq<Tok>): Reading
    requires Ended(ts)
  {
    if level <= 1 then POr(ts)
    else if level == 2 then PAnd(ts)
    else if level == 3 then PNot(ts)
    else if level == 4 then PComparison(ts)
    else if level == 5 then PAdd(ts)
    else if level == 6 then PMul(ts)
    else if level == 7 then PUnary(ts)
    else PPrimary(ts)
  }

  function CarryOn(level: nat, e: Expr, ts: seq<Tok>): Reading
    requires Ended(ts)
  {
    if level <= 1 then OrLoop(e, ts)
    else if level == 2 then AndLoop(e, ts)
    else if level == 5 then AddLoop(e, ts)
    else if level == 6 then MulLoop(e, ts)
    else Some((e, ts))
  }

  // The level at which a token would extend what stands before it; 0 for tokens that close a phrase.
  function Extends(t: Tok): nat {
    if IsKw(t, KOr) then 1
    else if IsKw(t, KAnd) then 2
    else if IsKw(t, KIn) || IsKw(t, KContains) || ComparisonOp(t).Some? then 4
    else if AdditiveOp(t).Some? then 5
    else if MultiplicativeOp(t).Some? then 6
    else if IsPunct(t, '(') || IsPunct(t, '.') then 8
    else 0
  }

  // May this token follow a phrase read at the level?
  predicate Follows(t: Tok, level: nat) {
    if level == 4 then Extends(t) < 4
    else if level == 8 then Extends(t) < 8
    else Extends(t) <= level
  }

  // One level up: unless the first token belongs to the outer level, it reads what the inner one reads.
  lemma ReadThrough(level: nat, ts: seq<Tok>, e: Expr, rest: seq<Tok>)
    requires level < 8 && Ended(ts) && Ended(rest) && Follows(rest[0], level)
    requires ReadAt(level + 1, ts) == CarryOn(level + 1, e, rest)
    requires level == 3 ==> !IsKw(ts[0], KNot)
    requires level == 7 ==> ts[0] != OpTok(Minus) && ts[0] != OpTok(Plus)
    ensures ReadAt(level, ts) == CarryOn(level, e, rest)
  {
    hide ReadAt, CarryOn, Follows;
    if level < 4 {
      ReadThroughConnectives(level, ts, e, rest);
    } else if level < 6 {
      ReadThroughSums(level, ts, e, rest);
    } else {
      ReadThroughFactors(level, ts, e, rest);
    }
  }

  lemma ReadThroughConnectives(level: nat, ts: seq<Tok>, e: Expr, rest: seq<Tok>)
    requires level < 4 && Ended(ts) && Ended(rest) && Follows(rest[0], level)
    requires ReadAt(level + 1, ts) == CarryOn(level + 1, e, rest)
    requires level == 3 ==> !IsKw(ts[0], KNot)
    ensures ReadAt(level, ts) == CarryOn(level, e, rest)
  {
    hide PComparison, PAdd, PMul, PUnary, PPrimary, AddLoop, MulLoop, CompareWith;
    match level
    case 0 =>
    case 1 => assert AndLoop(e, rest) == Some((e, rest));
    case 2 => assert PNot(ts) == Some((e, rest));
    case _ => assert PNot(ts) == PComparison(ts);
  }

  lemma NothingToCompare(e: Expr, rest: seq<Tok>)
    requires Ended(rest) && Follows(rest[0], 4)
    ensures CompareWith(e, rest) == Some((e, rest))
  {
    hide PAdd;
  }

  lemma ReadThroughSums(level: nat, ts: seq<Tok>, e: Expr, rest: seq<Tok>)
    requires 4 <= level < 6 && Ended(ts) && Ended(rest) && Follows(rest[0], level)
    requires ReadAt(level + 1, ts) == CarryOn(level + 1, e, rest)
    ensures ReadAt(level, ts) == CarryOn(level, e, rest)
  {
    hide POr, PAnd, PNot, OrLoop, AndLoop, PUnary, PPrimary, PMul, KeywordText, CompareWith;
    match level
    case 4 =>
      assert AddLoop(e, rest) == Some((e, rest));
      NothingToCompare(e, rest);
    case _ => assert MulLoop(e, rest) == Some((e, rest));
  }

  lemma ReadThroughFactors(level: nat, ts: seq<Tok>, e: Expr, rest: seq<Tok>)
    requires 6 <= level < 8 && Ended(ts) && Ended(rest) && Follows(rest[0], level)
    requires ReadAt(level + 1, ts) == CarryOn(level + 1, e, rest)
    requires level == 7 ==> ts[0] != OpTok(Minus) && ts[0] != OpTok(Plus)
    ensures ReadAt(level, ts) == CarryOn(level, e, rest)
  {
    hide POr, PAnd, PNot, PComparison, PAdd, OrLoop, AndLoop, AddLoop, PPrimary, CompareWith;
    match level
    case 6 => assert PUnary(ts) == Some((e, rest));
    case _ => assert PUnary(ts) == PPrimary(ts);
  }

  lemma {:induction false} ReadDown(level: nat, own: nat, ts: seq<Tok>, e: Expr, rest: seq<Tok>)
    requires level <= own <= 8 && Ended(ts) && Ended(rest) && Follows(rest[0], level)
    requires ReadAt(own, ts) == CarryOn(own, e, rest)
    requires level <= 3 < own ==> !IsKw(ts[0], KNot)
    requires level <= 7 < own ==> ts[0] != OpTok(Minus) && ts[0] != OpTok(Plus)
    ensures ReadAt(level, ts) == CarryOn(level, e, rest)
    decreases own - level
  {
    if level < own {
      ReadThrough(own - 1, ts, e, rest);
      ReadDown(level, own - 1, ts, e, rest);
    }
  }

  // ----- first tokens

  lemma {:induction false} BareStarts(e: Expr)
    ensures Bare(e)[0] != Punct(')') && Bare(e)[0] != Eof
    ensures Level(e) >= 4 ==> Bare(e)[0] != Kw(KNot)
    ensures Level(e) == 8 ==> !Bare(e)[0].OpTok?
    decreases e, 0
  {
    match e
    case Binary(op, left, right) => PrintStarts(left, LeftLevel(op));
    case Membership(item, collection, _) => PrintStarts(item, 5);
    case _ =>
  }

  lemma {:induction false} PrintStarts(e: Expr, level: nat)
    ensures Print(e, level)[0] != Punct(')') && Print(e, level)[0] != Eof
    ensures level >= 4 ==> Print(e, level)[0] != Kw(KNot)
    decreases e, 1
  {
    BareStarts(e);
  }

  // ----- literals, paths, arguments

  lemma {:induction false} DecimalReads(n: nat)
    ensures DotAt(Decimal(n)) == |Decimal(n)| && DigitsValue(Decimal(n)) == n
  {
    var s := Decimal(n);
    if n >= 10 {
      DecimalReads(n / 10);
      NoDotAppended(Decimal(n / 10), ('0' as int + n % 10) as char);
      assert s[..|s| - 1] == Decimal(n / 10);
    } else {
      assert s[..0] == "" && s[1..] == "";
    }
  }

  lemma {:induction false} NoDotAppended(s: string, c: char)
    requires DotAt(s) == |s| && c != '.'
    ensures DotAt(s + [c]) == |s| + 1
  {
    if s != [] {
      assert (s + [c])[1..] == s[1..] + [c];
      NoDotAppended(s[1..], c);
    } else {
      assert (s + [c])[1..] == "";
    }
  }

  lemma PathStops(root: PathRoot, sofar: seq<string>, rest: seq<Tok>)
    requires Ended(rest) && Follows(rest[0], 8)
    ensures PPath(root, sofar, rest) == Some((PathRef(root, sofar), rest))
  {
  }

  lemma PathStep(root: PathRoot, sofar: seq<string>, name: string, tail: seq<Tok>)
    requires Ended(tail)
    ensures Ended([Punct('.'), Id(name)] + tail)
    ensures PPath(root, sofar, [Punct('.'), Id(name)] + tail) == PPath(root, sofar + [name], tail)
  {
    hide KeywordText;
    assert ([Punct('.'), Id(name)] + tail)[2..] == tail;
  }

  lemma {:induction false} PathReads(root: PathRoot, sofar: seq<string>, parts: seq<string>, rest: seq<Tok>)
    requires Ended(rest) && Follows(rest[0], 8)
    ensures Ended(PathTokens(parts) + rest)
    ensures PPath(root, sofar, PathTokens(parts) + rest) == Some((PathRef(root, sofar + parts), rest))
    decreases |parts|
  {
    hide PPath, Follows, Ended;
    var ts := PathTokens(parts) + rest;
    if parts == [] {
      assert ts == rest && sofar + parts == sofar;
      PathStops(root, sofar, rest);
    } else {
      var tail := PathTokens(parts[1..]) + rest;
      PathReads(root, sofar + [parts[0]], parts[1..], rest);
      PathStep(root, sofar, parts[0], tail);
      assert ts == [Punct('.'), Id(parts[0])] + tail;
      assert sofar + [parts[0]] + parts[1..] == sofar + parts;
    }
  }

  lemma RootReads(root: PathRoot)
    ensures RootFor(RootText(root)) == Some(root)
  {
  }

  // ----- the round trip on tokens

  // A node at its own level.
  lemma {:induction false} BareReads(e: Expr, rest: seq<Tok>)
    requires Writable(e) && CleanParts(e) && Ended(rest) && Follows(rest[0], Level(e))
    ensures ReadAt(Level(e), Bare(e) + rest) == CarryOn(Level(e), e, rest)
    decreases e, 0, 1
  {
    match e
    case Literal(value) => LiteralReads(value, rest);
    case PathRef(root, parts) => PathRefReads(root, parts, rest);
    case Unary(_, _) => UnaryReads(e, rest);
    case Binary(_, _, _) => BinaryReads(e, rest);
    case Membership(_, _, _) => MembershipReads(e, rest);
    case Conditional(_, _, _) => ConditionalReads(e, rest);
    case CollectionPred(_, _, _, _, _) => CollectionPredReads(e, rest);
    case Call(_, _) => CallReads(e, rest);
  }

  lemma OrStops(e: Expr, rest: seq<Tok>)
    requires Ended(rest) && Extends(rest[0]) == 0
    ensures OrLoop(e, rest) == Some((e, rest))
  {
  }

  lemma BracketsRead(e: Expr, inside: seq<Tok>, rest: seq<Tok>)
    requires Ended(inside) && Ended(rest) && POr(inside) == Some((e, [Punct(')')] + rest))
    ensures PPrimary([Punct('(')] + inside) == Some((e, rest))
  {
    assert ([Punct('(')] + inside)[1..] == inside && ([Punct(')')] + rest)[1..] == rest;
    hide POr;
  }

  // A node in a place that reads the given level.
  lemma {:induction false} PrintReads(e: Expr, level: nat, rest: seq<Tok>)
    requires Writable(e) && Clean(e, level) && level <= 8 && Ended(rest) && Follows(rest[0], level)
    ensures ReadAt(level, Print(e, level) + rest) == CarryOn(level, e, rest)
    decreases e, 1, level
  {
    hide POr, PAnd, PNot, PComparison, PAdd, PMul, PUnary, PPrimary, OrLoop, AndLoop, AddLoop, MulLoop, Writable, CleanParts, Bare;
    var ts := Print(e, level) + rest;
    BareStarts(e);
    if Level(e) < level {
      var close := [Punct(')')] + rest;
      var inside := Bare(e) + close;
      assert ts == [Punct('(')] + inside;
      PrintReads(e, 0, close);
      assert Print(e, 0) == Bare(e);
      OrStops(e, close);
      BracketsRead(e, inside, rest);
      ReadDown(level, 8, ts, e, rest);
    } else {
      BareReads(e, rest);
      assert ts[0] == Bare(e)[0];
      ReadDown(level, Level(e), ts, e, rest);
    }
  }

  lemma LiteralReads(value: Value, rest: seq<Tok>)
    requires ValidLiteral(value) && CleanParts(Literal(value)) && Ended(rest)
    ensures PPrimary(Bare(Literal(value)) + rest) == Some((Literal(value), rest))
  {
    var ts := Bare(Literal(value)) + rest;
    assert ts[0] == LiteralToken(value) && ts[1..] == rest;
    if value.VInt? {
      DecimalReads(value.i);
    }
  }

  lemma IdReads(name: string, ts: seq<Tok>)
    requires Ended(ts)
    ensures PPrimary([Id(name)] + ts) == PPathOrCall(name, ts)
  {
    assert ([Id(name)] + ts)[1..] == ts;
    hide POr, PPathOrCall;
  }

  lemma PathStarts(root: PathRoot, ts: seq<Tok>)
    requires Ended(ts) && !IsPunct(ts[0], '(')
    ensures PPathOrCall(RootText(root), ts) == PPath(root, [], ts)
  {
    RootReads(root);
    hide PPath, RootText, RootFor;
  }

  lemma PathRefTokens(root: PathRoot, parts: seq<string>, rest: seq<Tok>)
    requires Ended(rest) && Follows(rest[0], 8)
    ensures Bare(PathRef(root, parts)) + rest == [Id(RootText(root))] + (PathTokens(parts) + rest)
    ensures Ended(PathTokens(parts) + rest) && !IsPunct((PathTokens(parts) + rest)[0], '(')
  {
    hide RootText;
  }

  lemma PathRefReads(root: PathRoot, parts: seq<string>, rest: seq<Tok>)
    requires Ended(rest) && Follows(rest[0], 8)
    ensures PPrimary(Bare(PathRef(root, parts)) + rest) == Some((PathRef(root, parts), rest))
  {
    hide *;
    var tail := PathTokens(parts) + rest;
    PathRefTokens(root, parts, rest);
    PathReads(root, [], parts, rest);
    assert [] + parts == parts;
    IdReads(RootText(root), tail);
    PathStarts(root, tail);
  }

  lemma PrefixReads(uop: UnOp, operand: Expr, inside: seq<Tok>, rest: seq<Tok>)
    requires Ended(inside) && Ended(rest)
    ensures uop.NotOp? && PNot(inside) == Some((operand, rest)) ==>
      PNot([Kw(KNot)] + inside) == Some((Unary(NotOp, operand), rest))
    ensures uop.Neg? && PUnary(inside) == Some((operand, rest)) ==>
      PUnary([OpTok(Minus)] + inside) == Some((Unary(Neg, operand), rest))
    ensures uop.Pos? && PUnary(inside) == Some((operand, rest)) ==>
      PUnary([OpTok(Plus)] + inside) == Some((Unary(Pos, operand), rest))
  {
    assert ([Kw(KNot)] + inside)[1..] == inside;
    assert ([OpTok(Minus)] + inside)[1..] == inside;
    assert ([OpTok(Plus)] + inside)[1..] == inside;
    hide PPrimary, PComparison;
  }

  lemma {:induction false} UnaryReads(e: Expr, rest: seq<Tok>)
    requires e.Unary? && Writable(e) && CleanParts(e) && Ended(rest) && Follows(rest[0], Level(e))
    ensures ReadAt(Level(e), Bare(e) + rest) == CarryOn(Level(e), e, rest)
    decreases e, 0, 0
  {
    hide POr, PAnd, PNot, PComparison, PAdd, PMul, PUnary, PPrimary, OrLoop, AndLoop, AddLoop, MulLoop;
    var level := if e.uop.NotOp? then 3 else 7;
    var inside := Print(e.operand, level) + rest;
    var prefix := if e.uop.NotOp? then Kw(KNot) else if e.uop.Neg? then OpTok(Minus) else OpTok(Plus);
    assert Bare(e) + rest == [prefix] + inside;
    hide Writable, CleanParts, Clean, Print, Bare;
    PrintReads(e.operand, level, rest);
    PrefixReads(e.uop, e.operand, inside, rest);
  }

  lemma {:induction false} BinaryReads(e: Expr, rest: seq<Tok>)
    requires e.Binary? && Writable(e) && CleanParts(e) && Ended(rest) && Follows(rest[0], Level(e))
    ensures ReadAt(Level(e), Bare(e) + rest) == CarryOn(Level(e), e, rest)
    decreases e, 0, 0
  {
    hide POr, PAnd, PNot, PComparison, PAdd, PMul, PUnary, PPrimary, OrLoop, AndLoop, AddLoop, MulLoop;
    var op, left, right := e.op, e.left, e.right;
    var after := Print(right, RightLevel(op)) + rest;
    var middle := [OpToken(op)] + after;
    assert Bare(e) + rest == Print(left, LeftLevel(op)) + middle;
    assert middle[1..] == after;
    PrintReads(left, LeftLevel(op), middle);
    PrintReads(right, RightLevel(op), rest);
    StopsBelow(RightLevel(op), right, rest);
    BinaryStep(op, left, right, middle, after, rest);
    if Level(e) == 4 {
      ComparisonReads(Bare(e) + rest, left, middle);
    }
  }

  // A token of a lower level ends the phrase.
  lemma StopsBelow(level: nat, e: Expr, rest: seq<Tok>)
    requires Ended(rest) && Extends(rest[0]) < level
    ensures CarryOn(level, e, rest) == Some((e, rest))
  {
  }

  lemma ComparisonReads(ts: seq<Tok>, left: Expr, middle: seq<Tok>)
    requires Ended(ts) && Ended(middle) && PAdd(ts) == Some((left, middle))
    ensures PComparison(ts) == CompareWith(left, middle)
  {
  }

  // What a level does with an operator and a finished right operand.
  lemma BinaryStep(op: BinOp, left: Expr, right: Expr, middle: seq<Tok>, after: seq<Tok>, rest: seq<Tok>)
    requires Ended(after) && Ended(rest) && middle == [OpToken(op)] + after
    requires ReadAt(RightLevel(op), after) == Some((right, rest))
    requires Follows(rest[0], Level(Binary(op, left, right)))
    ensures Ended(middle)
    ensures Level(Binary(op, left, right)) != 4 ==>
      CarryOn(LeftLevel(op), left, middle) == CarryOn(LeftLevel(op), Binary(op, left, right), rest)
    ensures Level(Binary(op, left, right)) == 4 ==>
      CarryOn(5, left, middle) == Some((left, middle)) && CompareWith(left, middle) == Some((Binary(op, left, right), rest))
  {
    assert middle[1..] == after && middle[0] == OpToken(op);
  }

  lemma {:induction false} MembershipReads(e: Expr, rest: seq<Tok>)
    requires e.Membership? && Writable(e) && CleanParts(e) && Ended(rest) && Follows(rest[0], 4)
    ensures PComparison(Bare(e) + rest) == Some((e, rest))
    decreases e, 0, 0
  {
    var after := Print(e.collection, 5) + rest;
    var middle := [Kw(KIn)] + after;
    assert Bare(e) + rest == Print(e.item, 5) + middle;
    assert middle[1..] == after;
    PrintReads(e.item, 5, middle);
    PrintReads(e.collection, 5, rest);
    assert AddLoop(e.item, middle) == Some((e.item, middle));
    assert AddLoop(e.collection, rest) == Some((e.collection, rest));
    hide PAdd;
  }

  // A phrase that nothing can extend is read whole.
  lemma {:induction false} PhraseReads(e: Expr, rest: seq<Tok>)
    requires Writable(e) && Clean(e, 0) && Ended(rest) && Extends(rest[0]) == 0
    ensures POr(Print(e, 0) + rest) == Some((e, rest))
    decreases e, 1, 1
  {
    PrintReads(e, 0, rest);
    assert OrLoop(e, rest) == Some((e, rest));
  }

  lemma Regroup(a: seq<Tok>, b: seq<Tok>, c: seq<Tok>, d: seq<Tok>, f: seq<Tok>, g: seq<Tok>, rest: seq<Tok>)
    ensures a + b + c + d + f + g + rest == a + (b + (c + (d + (f + (g + rest)))))
    ensures a + b + c + d + rest == a + (b + (c + (d + rest)))
  {
  }

  lemma ConditionalParts(e: Expr)
    requires e.Conditional? && Writable(e) && CleanParts(e)
    ensures Writable(e.test) && Writable(e.thenBranch) && Writable(e.elseBranch)
    ensures Clean(e.test, 0) && Clean(e.thenBranch, 0) && Clean(e.elseBranch, 0)
  {
    hide Clean;
  }

  lemma ConditionalTokens(e: Expr, rest: seq<Tok>)
    requires e.Conditional?
    ensures Bare(e) + rest == [Kw(KIf)] + (Print(e.test, 0)
      + ([Kw(KThen)] + (Print(e.thenBranch, 0) + ([Kw(KElse)] + (Print(e.elseBranch, 0) + rest)))))
  {
    Regroup([Kw(KIf)], Print(e.test, 0), [Kw(KThen)], Print(e.thenBranch, 0), [Kw(KElse)], Print(e.elseBranch, 0), rest);
    hide Print;
  }

  lemma EndedAfter(a: seq<Tok>, ts: seq<Tok>)
    requires Ended(ts)
    ensures Ended(a + ts)
  {
  }

  lemma WordCloses(k: Keyword)
    requires k in {KThen, KElse}
    ensures Extends(Kw(k)) == 0
  {
    hide KeywordText;
  }

  lemma PunctuationCloses(c: char)
    requires c in {':', ')', ','}
    ensures Extends(Punct(c)) == 0
  {
    hide KeywordText;
  }

  lemma Closers(ts: seq<Tok>)
    ensures Extends(([Kw(KThen)] + ts)[0]) == Extends(([Kw(KElse)] + ts)[0]) == 0
    ensures Extends(([Punct(':')] + ts)[0]) == Extends(([Punct(')')] + ts)[0]) == Extends(([Punct(',')] + ts)[0]) == 0
  {
    hide *;
    WordCloses(KThen);
    WordCloses(KElse);
    PunctuationCloses(':');
    PunctuationCloses(')');
    PunctuationCloses(',');
  }

  // A conditional or quantifier, once read as a primary, is a whole phrase.
  lemma PhraseFromPrimary(ts: seq<Tok>, e: Expr, rest: seq<Tok>)
    requires Ended(ts) && Ended(rest) && Extends(rest[0]) == 0 && ts[0].Kw? && ts[0] != Kw(KNot)
    requires PPrimary(ts) == Some((e, rest))
    ensures POr(ts) == OrLoop(e, rest)
  {
    hide PPrimary, POr, OrLoop;
    ReadDown(0, 8, ts, e, rest);
  }

  lemma {:induction false} ConditionalReads(e: Expr, rest: seq<Tok>)
    requires e.Conditional? && Writable(e) && CleanParts(e) && Ended(rest) && Extends(rest[0]) == 0
    ensures Ended(Bare(e) + rest) && POr(Bare(e) + rest) == OrLoop(e, rest)
    decreases e, 0, 0
  {
    hide *;
    ConditionalParts(e);
    var third := Print(e.elseBranch, 0) + rest;
    var second := Print(e.thenBranch, 0) + ([Kw(KElse)] + third);
    var first := Print(e.test, 0) + ([Kw(KThen)] + second);
    EndedAfter(Print(e.elseBranch, 0), rest);
    EndedAfter([Kw(KElse)], third);
    EndedAfter(Print(e.thenBranch, 0), [Kw(KElse)] + third);
    EndedAfter([Kw(KThen)], second);
    EndedAfter(Print(e.test, 0), [Kw(KThen)] + second);
    EndedAfter([Kw(KIf)], first);
    Closers(second);
    Closers(third);
    PhraseReads(e.test, [Kw(KThen)] + second);
    PhraseReads(e.thenBranch, [Kw(KElse)] + third);
    PhraseReads(e.elseBranch, rest);
    ConditionalStep(e, first, second, third, rest);
    ConditionalTokens(e, rest);
    PhraseFromPrimary([Kw(KIf)] + first, e, rest);
  }

  lemma ConditionalStep(e: Expr, first: seq<Tok>, second: seq<Tok>, third: seq<Tok>, rest: seq<Tok>)
    requires e.Conditional? && Ended(first) && Ended(second) && Ended(third) && Ended(rest)
    requires POr(first) == Some((e.test, [Kw(KThen)] + second))
    requires POr(second) == Some((e.thenBranch, [Kw(KElse)] + third))
    requires POr(third) == Some((e.elseBranch, rest))
    ensures PPrimary([Kw(KIf)] + first) == Some((e, rest))
  {
    assert ([Kw(KThen)] + second)[1..] == second && ([Kw(KElse)] + third)[1..] == third;
    assert ([Kw(KIf)] + first)[1..] == first;
    hide POr;
  }

  lemma CollectionPredParts(e: Expr)
    requires e.CollectionPred? && Writable(e) && CleanParts(e)
    ensures Writable(e.domain) && Writable(e.body) && e.bound == DEFAULT_BOUND
    ensures Clean(e.domain, 0) && Clean(e.body, 0)
  {
    hide Clean, ValidName;
  }

  lemma CollectionPredTokens(e: Expr, rest: seq<Tok>)
    requires e.CollectionPred?
    ensures Bare(e) + rest == [Kw(if e.kind.All? then KAll else KAny), Id(e.variable), Kw(KIn)]
      + (Print(e.domain, 0) + ([Punct(':')] + (Print(e.body, 0) + rest)))
  {
    var head := [Kw(if e.kind.All? then KAll else KAny), Id(e.variable), Kw(KIn)];
    Regroup(head, Print(e.domain, 0), [Punct(':')], Print(e.body, 0), [], [], rest);
    hide Print;
  }

  lemma {:induction false} CollectionPredReads(e: Expr, rest: seq<Tok>)
    requires e.CollectionPred? && Writable(e) && CleanParts(e) && Ended(rest) && Extends(rest[0]) == 0
    ensures Ended(Bare(e) + rest) && POr(Bare(e) + rest) == OrLoop(e, rest)
    decreases e, 0, 0
  {
    hide *;
    CollectionPredParts(e);
    var head := [Kw(if e.kind.All? then KAll else KAny), Id(e.variable), Kw(KIn)];
    var second := Print(e.body, 0) + rest;
    var first := Print(e.domain, 0) + ([Punct(':')] + second);
    EndedAfter(Print(e.body, 0), rest);
    EndedAfter([Punct(':')], second);
    EndedAfter(Print(e.domain, 0), [Punct(':')] + second);
    EndedAfter(head, first);
    Closers(second);
    PhraseReads(e.domain, [Punct(':')] + second);
    PhraseReads(e.body, rest);
    CollectionPredStep(e, first, second, rest);
    CollectionPredTokens(e, rest);
    PhraseFromPrimary(head + first, e, rest);
  }

  lemma CollectionPredStep(e: Expr, first: seq<Tok>, second: seq<Tok>, rest: seq<Tok>)
    requires e.CollectionPred? && e.bound == DEFAULT_BOUND && Ended(first) && Ended(second) && Ended(rest)
    requires POr(first) == Some((e.domain, [Punct(':')] + second))
    requires POr(second) == Some((e.body, rest))
    ensures PPrimary([Kw(if e.kind.All? then KAll else KAny), Id(e.variable), Kw(KIn)] + first) == Some((e, rest))
  {
    var after := [Id(e.variable), Kw(KIn)] + first;
    var ts := [Kw(if e.kind.All? then KAll else KAny), Id(e.variable), Kw(KIn)] + first;
    assert ts[1..] == after && after[2..] == first;
    assert after[0] == Id(e.variable) && after[1] == Kw(KIn) && ts[0] != Kw(KIf);
    assert ([Punct(':')] + second)[1..] == second;
    hide POr, KeywordText;
  }

  lemma CallParts(e: Expr)
    requires e.Call? && Writable(e) && CleanParts(e)
    ensures forall a :: a in e.args ==> Writable(a) && Clean(a, 0)
  {
    hide Clean, ValidName;
  }

  lemma ArgsStart(args: seq<Expr>)
    requires args != []
    ensures PrintArgs(args) != [] && PrintArgs(args)[0] != Punct(')')
  {
    PrintStarts(args[0], 0);
    hide Print;
  }

  // A name, an opening bracket, and what stands between the brackets.
  lemma CallStep(name: string, args: seq<Expr>, inside: seq<Tok>, rest: seq<Tok>)
    requires Ended(inside) && Ended(rest)
    requires if args == [] then inside == [Punct(')')] + rest
             else inside[0] != Punct(')') && PArgs([], inside) == Some((args, [Punct(')')] + rest))
    ensures PPathOrCall(name, [Punct('(')] + inside) == Some((Call(name, args), rest))
  {
    var after := [Punct('(')] + inside;
    assert after[1..] == inside && ([Punct(')')] + rest)[1..] == rest;
    if args == [] {
      assert after[2..] == rest;
    }
    hide PArgs, PPath;
  }

  lemma CallTokens(e: Expr, rest: seq<Tok>)
    requires e.Call? && Ended(rest)
    ensures var inside := PrintArgs(e.args) + ([Punct(')')] + rest);
      && Bare(e) + rest == [Id(e.name)] + ([Punct('(')] + inside)
      && Ended(inside) && Ended([Punct('(')] + inside)
      && (e.args == [] ==> inside == [Punct(')')] + rest)
  {
    var inside := PrintArgs(e.args) + ([Punct(')')] + rest);
    assert Bare(e) + rest == [Id(e.name)] + ([Punct('(')] + inside);
    hide Print;
  }

  lemma {:induction false} CallReads(e: Expr, rest: seq<Tok>)
    requires e.Call? && Writable(e) && CleanParts(e) && Ended(rest) && Follows(rest[0], 8)
    ensures PPrimary(Bare(e) + rest) == Some((e, rest))
    decreases e, 0, 0
  {
    hide *;
    CallParts(e);
    CallTokens(e, rest);
    var inside := PrintArgs(e.args) + ([Punct(')')] + rest);
    if e.args != [] {
      ArgsRead(e.args, [], rest);
      ArgsStart(e.args);
      assert [] + e.args == e.args;
    }
    CallStep(e.name, e.args, inside, rest);
    IdReads(e.name, [Punct('(')] + inside);
  }

  lemma ArgsStep(sofar: seq<Expr>, arg: Expr, ts: seq<Tok>, close: seq<Tok>, more: seq<Tok>)
    requires Ended(ts) && Ended(close) && Ended(more) && close[0] == Punct(')')
    ensures POr(ts) == Some((arg, close)) ==> PArgs(sofar, ts) == Some((sofar + [arg], close))
    ensures POr(ts) == Some((arg, [Punct(',')] + more)) ==> PArgs(sofar, ts) == PArgs(sofar + [arg], more)
  {
    assert ([Punct(',')] + more)[1..] == more;
    hide POr;
  }

  lemma ArgsTokens(args: seq<Expr>)
    requires args != []
    ensures PrintArgs(args) == Print(args[0], 0) + (if |args| == 1 then [] else [Punct(',')] + PrintArgs(args[1..]))
  {
    hide Print;
  }

  lemma {:induction false} ArgsRead(args: seq<Expr>, sofar: seq<Expr>, rest: seq<Tok>)
    requires args != [] && Ended(rest) && forall a :: a in args ==> Writable(a) && Clean(a, 0)
    ensures Ended(PrintArgs(args) + ([Punct(')')] + rest))
    ensures PArgs(sofar, PrintArgs(args) + ([Punct(')')] + rest)) == Some((sofar + args, [Punct(')')] + rest))
    decreases args, 2, 0
  {
    hide *;
    ArgsTokens(args);
    var close := [Punct(')')] + rest;
    var ts := PrintArgs(args) + close;
    EndedAfter([Punct(')')], rest);
    EndedAfter(PrintArgs(args), close);
    Closers(rest);
    assert args[0] in args;
    if |args| == 1 {
      assert ts == Print(args[0], 0) + close;
      PhraseReads(args[0], close);
      ArgsStep(sofar, args[0], ts, close, close);
      assert args == [args[0]];
    } else {
      var more := PrintArgs(args[1..]) + close;
      assert ts == Print(args[0], 0) + ([Punct(',')] + more);
      ArgsRead(args[1..], sofar + [args[0]], rest);
      EndedAfter([Punct(',')], more);
      Closers(more);
      PhraseReads(args[0], [Punct(',')] + more);
      ArgsStep(sofar, args[0], ts, close, more);
      assert sofar + [args[0]] + args[1..] == sofar + args;
    }
  }

  // The parser inverts the printer on tokens.
  lemma TokensRoundTrip(e: Expr)
    requires Writable(e) && Clean(e, 0)
    ensures ParseTokens(Print(e, 0) + [Eof]) == Some(e)
  {
    hide POr, Print, Writable, Clean;
    PhraseReads(e, [Eof]);
  }
}
