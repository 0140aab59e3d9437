/** The recursive-descent parser: one cursor, advanced by every method. */
module ExprParser {
  import opened Wrappers
  import opened Text
  import opened ExprAst
  import opened ExprLexer
  import opened ExprGrammar

  class Parser {
    const tokens: seq<Tok>
    var pos: nat

    // The cursor always stands on a token: it never passes Eof.
    ghost predicate Valid()
      reads this
    {
      pos < |tokens| && tokens[|tokens| - 1] == Eof
    }

    ghost function Rest(): (ts: seq<Tok>)
      requires Valid()
      reads this
      ensures Ended(ts)
    {
      tokens[pos..]
    }

    // What a level read is what the grammar says, and the cursor stands where the grammar stops.
    ghost predicate Agrees(r: Option<Expr>, reading: Reading)
      requires Valid()
      reads this
    {
      if r.None? then reading.None? else reading == Some((r.value, Rest()))
    }

    constructor (tokens: seq<Tok>)
      requires Ended(tokens)
      ensures Valid() && Rest() == tokens
    {
      this.tokens := tokens;
      pos := 0;
    }

    function Cur(): Tok
      requires Valid()
      reads this
    {
      tokens[pos]
    }

    // Only past Eof, where no caller goes, does the cursor leave the tokens.
    method Advance() returns (t: Tok)
      requires Valid()
      modifies this
      ensures t == old(Cur()) && pos == old(pos) + 1
      ensures t != Eof ==> Valid() && Rest() == old(Rest())[1..]
    {
      t := tokens[pos];
      pos := pos + 1;
    }

    method MatchKw(k: Keyword) returns (matched: bool)
      requires Valid()
      modifies this
      ensures Valid() && matched == IsKw(old(Cur()), k)
      ensures pos == (if matched then old(pos) + 1 else old(pos))
      ensures Rest() == if matched then old(Rest())[1..] else old(Rest())
    {
      matched := IsKw(Cur(), k);
      if matched {
        var _ := Advance();
      }
    }

    method MatchPunct(c: char) returns (matched: bool)
      requires Valid()
      modifies this
      ensures Valid() && matched == IsPunct(old(Cur()), c)
      ensures pos == (if matched then old(pos) + 1 else old(pos))
      ensures Rest() == if matched then old(Rest())[1..] else old(Rest())
    {
      matched := IsPunct(Cur(), c);
      if matched {
        var _ := Advance();
      }
    }

    method ExpectId() returns (name: Option<string>)
      requires Valid()
      modifies this
      ensures Valid() && (name.Some? <==> IsId(old(Cur())))
      ensures name.Some? ==> name.value == IdText(old(Cur()))
      ensures pos == (if name.Some? then old(pos) + 1 else old(pos))
      ensures Rest() == if name.Some? then old(Rest())[1..] else old(Rest())
    {
      if IsId(Cur()) {
        var t := Advance();
        name := Some(IdText(t));
      } else {
        name := None;
      }
    }

    method Parse() returns (r: Option<Expr>)
      requires Valid()
      modifies this
      ensures Valid() && r == ParseTokens(old(Rest()))
    {
      r := ParseOr();
      if r.Some? && Cur() != Eof {
        r := None;
      }
    }

    method ParseOr() returns (r: Option<Expr>)
      requires Valid()
      modifies this
      ensures Valid() && Agrees(r, POr(old(Rest())))
      decreases |tokens| - pos, 9
    {
      hide PAnd, KeywordText;
      r := ParseAnd();
      if r.None? {
        return;
      }
      var left := r.value;
      while true
        invariant Valid() && pos > old(pos)
        invariant POr(old(Rest())) == OrLoop(left, Rest())
        decreases |tokens| - pos
      {
        var matched := MatchKw(KOr);
        if !matched {
          return Some(left);
        }
        r := ParseAnd();
        if r.None? {
          return;
        }
        left := Binary(Or, left, r.value);
      }
    }

    method ParseAnd() returns (r: Option<Expr>)
      requires Valid()
      modifies this
      ensures Valid() && Agrees(r, PAnd(old(Rest()))) && (r.Some? ==> pos > old(pos))
      decreases |tokens| - pos, 8
    {
      hide PNot, KeywordText;
      r := ParseNot();
      if r.None? {
        return;
      }
      var left := r.value;
      while true
        invariant Valid() && pos > old(pos)
        invariant PAnd(old(Rest())) == AndLoop(left, Rest())
        decreases |tokens| - pos
      {
        var matched := MatchKw(KAnd);
        if !matched {
          return Some(left);
        }
        r := ParseNot();
        if r.None? {
          return;
        }
        left := Binary(And, left, r.value);
      }
    }

    method ParseNot() returns (r: Option<Expr>)
      requires Valid()
      modifies this
      ensures Valid() && Agrees(r, PNot(old(Rest()))) && (r.Some? ==> pos > old(pos))
      decreases |tokens| - pos, 7
    {
      hide PComparison, KeywordText;
      var matched := MatchKw(KNot);
      if matched {
        r := ParseNot();
        if r.Some? {
          r := Some(Unary(NotOp, r.value));
        }
      } else {
        r := ParseComparison();
      }
    }

    method ParseComparison() returns (r: Option<Expr>)
      requires Valid()
      modifies this
      ensures Valid() && Agrees(r, PComparison(old(Rest()))) && (r.Some? ==> pos > old(pos))
      decreases |tokens| - pos, 6
    {
      hide PAdd, KeywordText;
      r := ParseAdd();
      if r.None? {
        return;
      }
      var left := r.value;
      var matched := MatchKw(KIn);
      if matched {
        r := ParseAdd();
        return if r.None? then None else Some(Membership(left, r.value, false));
      }
      matched := MatchKw(KContains);
      if matched {
        r := ParseAdd();
        return if r.None? then None else Some(Membership(r.value, left, false));
      }
      if ComparisonOp(Cur()).Some? {
        var tok := Advance();
        r := ParseAdd();
        return if r.None? then None else Some(Binary(ComparisonOp(tok).value, left, r.value));
      }
    }

    method ParseAdd() returns (r: Option<Expr>)
      requires Valid()
      modifies this
      ensures Valid() && Agrees(r, PAdd(old(Rest()))) && (r.Some? ==> pos > old(pos))
      decreases |tokens| - pos, 5
    {
      hide PMul;
      r := ParseMul();
      if r.None? {
        return;
      }
      var left := r.value;
      while AdditiveOp(Cur()).Some?
        invariant Valid() && pos > old(pos)
        invariant PAdd(old(Rest())) == AddLoop(left, Rest())
        decreases |tokens| - pos
      {
        var tok := Advance();
        r := ParseMul();
        if r.None? {
          return;
        }
        left := Binary(AdditiveOp(tok).value, left, r.value);
      }
      r := Some(left);
    }

    method ParseMul() returns (r: Option<Expr>)
      requires Valid()
      modifies this
      ensures Valid() && Agrees(r, PMul(old(Rest()))) && (r.Some? ==> pos > old(pos))
      decreases |tokens| - pos, 4
    {
      hide PUnary;
      r := ParseUnary();
      if r.None? {
        return;
      }
      var left := r.value;
      while MultiplicativeOp(Cur()).Some?
        invariant Valid() && pos > old(pos)
        invariant PMul(old(Rest())) == MulLoop(left, Rest())
        decreases |tokens| - pos
      {
        var tok := Advance();
        r := ParseUnary();
        if r.None? {
          return;
        }
        left := Binary(MultiplicativeOp(tok).value, left, r.value);
      }
      r := Some(left);
    }

    method ParseUnary() returns (r: Option<Expr>)
      requires Valid()
      modifies this
      ensures Valid() && Agrees(r, PUnary(old(Rest()))) && (r.Some? ==> pos > old(pos))
      decreases |tokens| - pos, 3
    {
      hide PPrimary;
      if Cur() == OpTok(Minus) {
        var _ := Advance();
        r := ParseUnary();
        return if r.None? then None else Some(Unary(Neg, r.value));
      }
      if Cur() == OpTok(Plus) {
        var _ := Advance();
        r := ParseUnary();
        return if r.None? then None else Some(Unary(Pos, r.value));
      }
      r := ParsePrimary();
    }

    method ParsePrimary() returns (r: Option<Expr>)
      requires Valid()
      modifies this
      ensures Valid() && Agrees(r, PPrimary(old(Rest()))) && (r.Some? ==> pos > old(pos))
      decreases |tokens| - pos, 2
    {
      hide POr, PConditional, PCollectionPred, PAtom, KeywordText;
      var tok := Cur();
      var matched := MatchKw(KIf);
      if matched {
        r := ParseConditional();
        return;
      }
      if tok == Kw(KAll) || tok == Kw(KAny) {
        var _ := Advance();
        r := ParseCollectionPred(if tok == Kw(KAll) then All else Any);
        return;
      }
      matched := MatchPunct('(');
      if matched {
        r := ParseOr();
        if r.Some? {
          matched := MatchPunct(')');
          if !matched {
            r := None;
          }
        }
        return;
      }
      r := ParseAtom();
    }

    // A literal, a path or a call.
    method ParseAtom() returns (r: Option<Expr>)
      requires Valid()
      modifies this
      ensures Valid() && Agrees(r, PAtom(old(Rest()))) && (r.Some? ==> pos > old(pos))
      decreases |tokens| - pos, 1
    {
      hide PPathOrCall, NumberValue;
      match Cur() {
        case Str(s) =>
          var _ := Advance();
          r := Some(Literal(VStr(s)));
        case Num(raw) =>
          var _ := Advance();
          r := if NumberValue(raw).None? then None else Some(Literal(NumberValue(raw).value));
        case Kw(KTrue) =>
          var _ := Advance();
          r := Some(Literal(VBool(true)));
        case Kw(KFalse) =>
          var _ := Advance();
          r := Some(Literal(VBool(false)));
        case Kw(KNull) =>
          var _ := Advance();
          r := Some(Literal(VNone));
        case Kw(KNone) =>
          var _ := Advance();
          r := Some(Literal(VNone));
        case Id(name) =>
          var _ := Advance();
          r := ParsePathOrCall(name);
        case _ =>
          r := None;
      }
    }

    method ParseConditional() returns (r: Option<Expr>)
      requires Valid()
      modifies this
      ensures Valid() && Agrees(r, PConditional(old(Rest()))) && (r.Some? ==> pos > old(pos))
      decreases |tokens| - pos, 10
    {
      hide POr, KeywordText;
      var test := ParseOr();
      if test.None? {
        return None;
      }
      var matched := MatchKw(KThen);
      if !matched {
        return None;
      }
      var thenBranch := ParseOr();
      if thenBranch.None? {
        return None;
      }
      matched := MatchKw(KElse);
      if !matched {
        return None;
      }
      var elseBranch := ParseOr();
      if elseBranch.None? {
        return None;
      }
      r := Some(Conditional(test.value, thenBranch.value, elseBranch.value));
    }

    method ParseCollectionPred(kind: Quantifier) returns (r: Option<Expr>)
      requires Valid()
      modifies this
      ensures Valid() && Agrees(r, PCollectionPred(kind, old(Rest()))) && (r.Some? ==> pos > old(pos))
      decreases |tokens| - pos, 10
    {
      hide POr, KeywordText;
      var variable := ExpectId();
      if variable.None? {
        return None;
      }
      var matched := MatchKw(KIn);
      if !matched {
        return None;
      }
      var domain := ParseOr();
      if domain.None? {
        return None;
      }
      matched := MatchPunct(':');
      if !matched {
        return None;
      }
      var body := ParseOr();
      if body.None? {
        return None;
      }
      r := Some(CollectionPred(kind, variable.value, domain.value, body.value, DEFAULT_BOUND));
    }

    method ParsePathOrCall(name: string) returns (r: Option<Expr>)
      requires Valid()
      modifies this
      ensures Valid() && Agrees(r, PPathOrCall(name, old(Rest()))) && (r.Some? ==> pos >= old(pos))
      decreases |tokens| - pos, 10
    {
      hide POr, KeywordText;
      var matched := MatchPunct('(');
      if matched {
        var args: seq<Expr> := [];
        if Cur() == Punct(')') {
          matched := MatchPunct(')');
          return Some(Call(name, []));
        }
        ghost var start := Rest();
        var more := true;
        while more
          invariant Valid() && pos > old(pos)
          invariant PArgs([], start) == if more then PArgs(args, Rest()) else Some((args, Rest()))
          decreases |tokens| - pos, more
        {
          var arg := ParseOr();
          if arg.None? {
            return None;
          }
          args := args + [arg.value];
          more := MatchPunct(',');
        }
        matched := MatchPunct(')');
        return if matched then Some(Call(name, args)) else None;
      }
      var parts: seq<string> := [];
      var root := State;
      if RootFor(name).Some? {
        root := RootFor(name).value;
      } else {
        parts := [name];
      }
      while true
        invariant Valid() && pos >= old(pos)
        invariant PPathOrCall(name, old(Rest())) == PPath(root, parts, Rest())
        decreases |tokens| - pos
      {
        matched := MatchPunct('.');
        if !matched {
          return Some(PathRef(root, parts));
        }
        var next := ExpectId();
        if next.None? {
          return None;
        }
        parts := parts + [next.value];
      }
    }
  }

  // The entry point on text.
  function ParseText(text: string): Result<Expr, ParseError> {
    var stripped := Strip(text);
    if stripped == [] then Err(ParseError.Empty)
    else
      var tokens := Lex(stripped);
      if tokens.None? then Err(Syntax)
      else
        var r := ParseTokens(tokens.value);
        if r.None? then Err(Syntax) else Ok(r.value)
  }

  method ParseExpression(text: string) returns (r: Result<Expr, ParseError>)
    ensures r == ParseText(text)
  {
    var stripped := Strip(text);
    if stripped == [] {
      return Err(ParseError.Empty);
    }
    var tokens := Tokenize(stripped);
    if tokens.None? {
      return Err(Syntax);
    }
    var parser := new Parser(tokens.value);
    var parsed := parser.Parse();
    r := if parsed.None? then Err(Syntax) else Ok(parsed.value);
  }
}
