/** What each level of the grammar reads from a token sequence: the node, and the tokens left. */
module ExprGrammar {
  import opened Wrappers
  import opened ExprAst
  import opened ExprLexer

  // The source's _match compares a token's kind or its value, so a string literal that spells a
  // keyword or a bracket passes for it.
  predicate IsKw(t: Tok, k: Keyword) { t == Kw(k) || t == Str(KeywordText(k)) }

  predicate IsPunct(t: Tok, c: char) { t == Punct(c) || t == Str([c]) }

  predicate IsId(t: Tok) { t.Id? || t == Str("id") }

  function IdText(t: Tok): string
    requires IsId(t)
  {
    if t.Id? then t.name else t.s
  }

  // ----- the reading above is the source's own, on tokens the tokenizer makes

  function KindText(t: Tok): string {
    match t
    case OpTok(_) => "op"
    case Punct(c) => [c]
    case Str(_) => "string"
    case Num(_) => "number"
    case Kw(_) => "kw"
    case Id(_) => "id"
    case Eof => "eof"
  }

  function ValueText(t: Tok): string {
    match t
    case OpTok(op) => OpText(op)
    case Punct(c) => [c]
    case Str(s) => s
    case Num(raw) => raw
    case Kw(k) => KeywordText(k)
    case Id(name) => name
    case Eof => ""
  }

  predicate Matches(t: Tok, kind: string) { KindText(t) == kind || ValueText(t) == kind }

  predicate Lexed(t: Tok) {
    match t
    case Punct(c) => c in PUNCTUATION
    case Num(raw) => raw != [] && '0' <= raw[0] <= '9'
    case Id(name) => name != [] && IsWordStart(name[0]) && forall k :: name != KeywordText(k)
    case _ => true
  }

  lemma OpTextStarts(op: OpSymbol)
    ensures OpText(op) != [] && OpText(op)[0] !in PUNCTUATION && !IsWordStart(OpText(op)[0])
  {
  }

  lemma KeywordTextStarts(k: Keyword)
    ensures |KeywordText(k)| >= 2 && IsWordStart(KeywordText(k)[0]) && KeywordText(k)[0] !in PUNCTUATION
    ensures KeywordText(k) !in ["op", "string", "number", "kw", "id", "eof"]
  {
    var s := KeywordText(k);
    assert |s| == 2 ==> s[1] in "rnf";
    assert |s| == 3 ==> s[0] in "an";
  }

  lemma MatchesKeyword(t: Tok, k: Keyword)
    requires Lexed(t)
    ensures Matches(t, KeywordText(k)) <==> IsKw(t, k)
  {
    KeywordTextStarts(k);
    match t
    case OpTok(op) => OpTextStarts(op);
    case Kw(k') => KeywordsDiffer(k, k');
    case Punct(c) => assert |[c]| == 1;
    case _ =>
  }

  lemma MatchesPunctuation(t: Tok, c: char)
    requires Lexed(t) && c in PUNCTUATION
    ensures Matches(t, [c]) <==> IsPunct(t, c)
  {
    match t
    case OpTok(op) => OpTextStarts(op);
    case Kw(k) => KeywordTextStarts(k);
    case Num(raw) => assert |raw| == 1 ==> raw[0] !in PUNCTUATION;
    case Id(name) => assert name[0] !in PUNCTUATION;
    case Punct(d) => assert [c] == [d] ==> [c][0] == [d][0];
    case _ =>
  }

  lemma MatchesId(t: Tok)
    requires Lexed(t)
    ensures Matches(t, "id") <==> IsId(t)
  {
    match t
    case OpTok(op) => OpTextStarts(op);
    case Kw(k) => KeywordTextStarts(k);
    case Punct(c) => assert |[c]| != |"id"|;
    case Num(raw) => assert "id"[0] == 'i';
    case _ =>
  }

  lemma KeywordsDiffer(k: Keyword, k': Keyword)
    ensures KeywordText(k) == KeywordText(k') ==> k == k'
  {
    var s, t := KeywordText(k), KeywordText(k');
    if s == t {
      assert |s| == |t|;
      assert s[0] == t[0] && s[1] == t[1];
      assert |s| >= 3 ==> s[2] == t[2];
      assert |s| >= 4 ==> s[3] == t[3];
    }
  }

  // ----- the grammar

  // Tokens end in Eof, and something is always left to look at.
  predicate Ended(ts: seq<Tok>) { ts != [] && ts[|ts| - 1] == Eof }

  type Reading = Option<(Expr, seq<Tok>)>

  predicate Shortens(r: Reading, ts: seq<Tok>) {
    r.Some? ==> Ended(r.value.1) && |r.value.1| < |ts|
  }

  predicate Keeps(r: Reading, ts: seq<Tok>) {
    r.Some? ==> Ended(r.value.1) && |r.value.1| <= |ts|
  }

  function ComparisonOp(t: Tok): Option<BinOp> {
    if t == OpTok(EqEq) then Some(Eq)
    else if t == OpTok(NotEq) then Some(Ne)
    else if t == OpTok(Less) then Some(Lt)
    else if t == OpTok(LessEq) then Some(Le)
    else if t == OpTok(Greater) then Some(Gt)
    else if t == OpTok(GreaterEq) then Some(Ge)
    else None
  }

  function AdditiveOp(t: Tok): Option<BinOp> {
    if t == OpTok(Plus) then Some(Add) else if t == OpTok(Minus) then Some(Sub) else None
  }

  function MultiplicativeOp(t: Tok): Option<BinOp> {
    if t == OpTok(Star) then Some(Mul)
    else if t == OpTok(Slash) then Some(Div)
    else if t == OpTok(SlashSlash) then Some(FloorDiv)
    else if t == OpTok(Percent) then Some(Mod)
    else None
  }

  function POr(ts: seq<Tok>): (r: Reading)
    requires Ended(ts)
    ensures Shortens(r, ts)
    decreases |ts|, 9, 0
  {
    var left := PAnd(ts);
    if left.None? then None else OrLoop(left.value.0, left.value.1)
  }

  function OrLoop(left: Expr, ts: seq<Tok>): (r: Reading)
    requires Ended(ts)
    ensures Keeps(r, ts)
    decreases |ts|, 10, 0
  {
    if IsKw(ts[0], KOr) then
      var right := PAnd(ts[1..]);
      if right.None? then None else OrLoop(Binary(Or, left, right.value.0), right.value.1)
    else Some((left, ts))
  }

  function PAnd(ts: seq<Tok>): (r: Reading)
    requires Ended(ts)
    ensures Shortens(r, ts)
    decreases |ts|, 8, 0
  {
    var left := PNot(ts);
    if left.None? then None else AndLoop(left.value.0, left.value.1)
  }

  function AndLoop(left: Expr, ts: seq<Tok>): (r: Reading)
    requires Ended(ts)
    ensures Keeps(r, ts)
    decreases |ts|, 10, 0
  {
    if IsKw(ts[0], KAnd) then
      var right := PNot(ts[1..]);
      if right.None? then None else AndLoop(Binary(And, left, right.value.0), right.value.1)
    else Some((left, ts))
  }

  function PNot(ts: seq<Tok>): (r: Reading)
    requires Ended(ts)
    ensures Shortens(r, ts)
    decreases |ts|, 7, 0
  {
    if IsKw(ts[0], KNot) then
      var operand := PNot(ts[1..]);
      if operand.None? then None else Some((Unary(NotOp, operand.value.0), operand.value.1))
    else PComparison(ts)
  }

  function PComparison(ts: seq<Tok>): (r: Reading)
    requires Ended(ts)
    ensures Shortens(r, ts)
    decreases |ts|, 6, 0
  {
    var left := PAdd(ts);
    if left.None? then None else CompareWith(left.value.0, left.value.1)
  }

  function CompareWith(left: Expr, ts: seq<Tok>): (r: Reading)
    requires Ended(ts)
    ensures Keeps(r, ts)
    decreases |ts|, 6, 0
  {
    if IsKw(ts[0], KIn) then
      var right := PAdd(ts[1..]);
      if right.None? then None else Some((Membership(left, right.value.0, false), right.value.1))
    else if IsKw(ts[0], KContains) then
      var right := PAdd(ts[1..]);
      if right.None? then None else Some((Membership(right.value.0, left, false), right.value.1))
    else if ComparisonOp(ts[0]).Some? then
      var right := PAdd(ts[1..]);
      if right.None? then None else Some((Binary(ComparisonOp(ts[0]).value, left, right.value.0), right.value.1))
    else Some((left, ts))
  }

  function PAdd(ts: seq<Tok>): (r: Reading)
    requires Ended(ts)
    ensures Shortens(r, ts)
    decreases |ts|, 5, 0
  {
    var left := PMul(ts);
    if left.None? then None else AddLoop(left.value.0, left.value.1)
  }

  function AddLoop(left: Expr, ts: seq<Tok>): (r: Reading)
    requires Ended(ts)
    ensures Keeps(r, ts)
    decreases |ts|, 10, 0
  {
    if AdditiveOp(ts[0]).Some? then
      var right := PMul(ts[1..]);
      if right.None? then None
      else AddLoop(Binary(AdditiveOp(ts[0]).value, left, right.value.0), right.value.1)
    else Some((left, ts))
  }

  function PMul(ts: seq<Tok>): (r: Reading)
    requires Ended(ts)
    ensures Shortens(r, ts)
    decreases |ts|, 4, 0
  {
    var left := PUnary(ts);
    if left.None? then None else MulLoop(left.value.0, left.value.1)
  }

  function MulLoop(left: Expr, ts: seq<Tok>): (r: Reading)
    requires Ended(ts)
    ensures Keeps(r, ts)
    decreases |ts|, 10, 0
  {
    if MultiplicativeOp(ts[0]).Some? then
      var right := PUnary(ts[1..]);
      if right.None? then None
      else MulLoop(Binary(MultiplicativeOp(ts[0]).value, left, right.value.0), right.value.1)
    else Some((left, ts))
  }

  function PUnary(ts: seq<Tok>): (r: Reading)
    requires Ended(ts)
    ensures Shortens(r, ts)
    decreases |ts|, 3, 0
  {
    if ts[0] == OpTok(Minus) || ts[0] == OpTok(Plus) then
      var operand := PUnary(ts[1..]);
      if operand.None? then None
      else Some((Unary(if ts[0] == OpTok(Minus) then Neg else Pos, operand.value.0), operand.value.1))
    else PPrimary(ts)
  }

  function PPrimary(ts: seq<Tok>): (r: Reading)
    requires Ended(ts)
    ensures Shortens(r, ts)
    decreases |ts|, 2, 0
  {
    if IsKw(ts[0], KIf) then PConditional(ts[1..])
    else if ts[0] == Kw(KAll) || ts[0] == Kw(KAny) then
      PCollectionPred(if ts[0] == Kw(KAll) then All else Any, ts[1..])
    else if IsPunct(ts[0], '(') then
      var inner := POr(ts[1..]);
      if inner.None? || !IsPunct(inner.value.1[0], ')') then None
      else Some((inner.value.0, inner.value.1[1..]))
    else PAtom(ts)
  }

  function PAtom(ts: seq<Tok>): (r: Reading)
    requires Ended(ts)
    ensures Shortens(r, ts)
    decreases |ts|, 1, 0
  {
    match ts[0]
    case Str(s) => Some((Literal(VStr(s)), ts[1..]))
    case Num(raw) => if NumberValue(raw).None? then None else Some((Literal(NumberValue(raw).value), ts[1..]))
    case Kw(KTrue) => Some((Literal(VBool(true)), ts[1..]))
    case Kw(KFalse) => Some((Literal(VBool(false)), ts[1..]))
    case Kw(KNull) => Some((Literal(VNone), ts[1..]))
    case Kw(KNone) => Some((Literal(VNone), ts[1..]))
    case Id(name) => PPathOrCall(name, ts[1..])
    case _ => None
  }

  // After `if`.
  function PConditional(ts: seq<Tok>): (r: Reading)
    requires Ended(ts)
    ensures Shortens(r, ts)
    decreases |ts|, 10, 0
  {
    var test := POr(ts);
    if test.None? || !IsKw(test.value.1[0], KThen) then None
    else
      var thenBranch := POr(test.value.1[1..]);
      if thenBranch.None? || !IsKw(thenBranch.value.1[0], KElse) then None
      else
        var elseBranch := POr(thenBranch.value.1[1..]);
        if elseBranch.None? then None
        else Some((Conditional(test.value.0, thenBranch.value.0, elseBranch.value.0), elseBranch.value.1))
  }

  // After `all` or `any`.
  function PCollectionPred(kind: Quantifier, ts: seq<Tok>): (r: Reading)
    requires Ended(ts)
    ensures Shortens(r, ts)
    decreases |ts|, 10, 0
  {
    if !IsId(ts[0]) || !IsKw(ts[1], KIn) then None
    else
      var domain := POr(ts[2..]);
      if domain.None? || !IsPunct(domain.value.1[0], ':') then None
      else
        var body := POr(domain.value.1[1..]);
        if body.None? then None
        else Some((CollectionPred(kind, IdText(ts[0]), domain.value.0, body.value.0, DEFAULT_BOUND), body.value.1))
  }

  // After a name.
  function PPathOrCall(name: string, ts: seq<Tok>): (r: Reading)
    requires Ended(ts)
    ensures Keeps(r, ts)
    decreases |ts|, 10, 0
  {
    if IsPunct(ts[0], '(') then
      if ts[1] == Punct(')') then Some((Call(name, []), ts[2..]))
      else
        var args := PArgs([], ts[1..]);
        if args.None? || !IsPunct(args.value.1[0], ')') then None
        else Some((Call(name, args.value.0), args.value.1[1..]))
    else
      var root := RootFor(name);
      PPath(if root.Some? then root.value else State, if root.Some? then [] else [name], ts)
  }

  // One argument, and the rest while commas follow.
  function PArgs(sofar: seq<Expr>, ts: seq<Tok>): (r: Option<(seq<Expr>, seq<Tok>)>)
    requires Ended(ts)
    ensures r.Some? ==> Ended(r.value.1) && |r.value.1| < |ts|
    decreases |ts|, 10, 0
  {
    var arg := POr(ts);
    if arg.None? then None
    else if IsPunct(arg.value.1[0], ',') then PArgs(sofar + [arg.value.0], arg.value.1[1..])
    else Some((sofar + [arg.value.0], arg.value.1))
  }

  function PPath(root: PathRoot, parts: seq<string>, ts: seq<Tok>): (r: Reading)
    requires Ended(ts)
    ensures Keeps(r, ts)
    decreases |ts|
  {
    if IsPunct(ts[0], '.') then
      if IsId(ts[1]) then PPath(root, parts + [IdText(ts[1])], ts[2..]) else None
    else Some((PathRef(root, parts), ts))
  }

  function RootFor(name: string): Option<PathRoot> {
    if name == "state" then Some(State)
    else if name == "actor" then Some(Actor)
    else if name == "payload" then Some(Payload)
    else if name == "context" then Some(Context)
    else None
  }

  // ----- number literals

  function DigitsValue(s: string): nat {
    if s == [] then 0
    else DigitsValue(s[..|s| - 1]) * 10 + (if '0' <= s[|s| - 1] <= '9' then s[|s| - 1] as int - '0' as int else 0)
  }

  function TenTo(n: nat): (t: nat)
    ensures t > 0
  {
    if n == 0 then 1 else 10 * TenTo(n - 1)
  }

  function DotAt(s: string): (n: nat)
    ensures n <= |s|
    ensures n < |s| ==> s[n] == '.'
  {
    if s == [] || s[0] == '.' then 0 else 1 + DotAt(s[1..])
  }

  // int(raw) without a dot; float(raw), which refuses a second dot, with one.
  function NumberValue(raw: string): Option<Value> {
    var dot := DotAt(raw);
    if dot == |raw| then Some(VInt(DigitsValue(raw)))
    else
      var fraction := raw[dot + 1..];
      if DotAt(fraction) < |fraction| then None
      else Some(VFloat(DigitsValue(raw[..dot] + fraction) as real / TenTo(|fraction|) as real))
  }

  // ----- the entry point

  datatype ParseError = Empty | Syntax

  function ParseTokens(ts: seq<Tok>): Option<Expr>
    requires Ended(ts)
  {
    var r := POr(ts);
    if r.None? || r.value.1[0] != Eof then None else Some(r.value.0)
  }
}
