/** Spellings the printer does not use, and what the parser makes of them. */
module ExprReadings {
  import opened Wrappers
  import opened Text
  import opened ExprAst
  import opened ExprLexer
  import opened ExprGrammar
  import opened ExprPrinter
  import opened ExprParser
  import opened ExprRoundTrip
  import opened ExprText
  import opened ExprNames

  // ----- a bare name, in front of any text

  // Nothing that would continue a word.
  predicate EndsWord(rest: string) { rest == [] || !IsWordChar(rest[0]) }

  lemma {:induction false} WordEndsThere(word: string, rest: string)
    requires WordSpan(word) == |word| && EndsWord(rest)
    ensures WordSpan(word + rest) == |word|
  {
    if word == [] {
      assert word + rest == rest;
    } else {
      assert (word + rest)[1..] == word[1..] + rest;
      WordEndsThere(word[1..], rest);
    }
  }

  lemma NameLexes(name: string, rest: string)
    requires ValidName(name) && EndsWord(rest)
    ensures Lex(name + rest) == Prepend([Id(name)], Lex(rest))
  {
    var s := name + rest;
    WordEndsThere(name, rest);
    WordStartIsNoOther(s);
    SpanIsNotSpace(name);
    assert s[0] == name[0] && s[..|name|] == name && s[|name|..] == rest;
    hide StringBody, KeywordFor, WordSpan, DoubleOp, SingleOp, IsSpace;
    assert FirstToken(s) == Some((Id(name), rest));
  }

  lemma DotLexes(rest: string)
    ensures Lex("." + rest) == Prepend([Punct('.')], Lex(rest))
  {
    PunctReads('.', rest);
    hide FirstToken, IsSpace;
  }

  lemma StateDotLexes(rest: string)
    ensures Lex("state" + ("." + rest)) == Prepend([Id("state"), Punct('.')], Lex(rest))
  {
    RootWrites(State);
    DotEndsWord(rest);
    hide *;
    assert RootText(State) == "state" by { StateIsRoot(); }
    NameLexes("state", "." + rest);
    DotLexes(rest);
    PrependInTurn([Id("state")], Punct('.'), Lex(rest));
    assert [Id("state")] + [Punct('.')] == [Id("state"), Punct('.')];
  }

  lemma StateIsRoot()
    ensures RootText(State) == "state" && RootFor("state") == Some(State)
  {
  }

  lemma DotEndsWord(rest: string)
    ensures EndsWord("." + rest)
  {
  }

  // What the parser sees of a text that starts and ends without a space.
  lemma TightParses(text: string)
    requires Tight(text) && text != []
    ensures ParseText(text) == if Lex(text).None? || ParseTokens(Lex(text).value).None? then Err(Syntax)
                               else Ok(ParseTokens(Lex(text).value).value)
  {
    TightStrips(text);
    hide Lex, ParseTokens, Strip, Tight;
  }

  // Behind its dot the name stays.
  lemma SegmentStays(name: string, ts: seq<Tok>)
    requires Ended(ts)
    ensures Expand(false, [Punct('.')] + ([Id(name)] + ts)) == [Punct('.')] + ([Id(name)] + Expand(false, ts))
  {
    hide Expand, IsBare, IsPunct;
    var bare := [Id(name)] + ts;
    var dotted := [Punct('.')] + bare;
    assert bare[1..] == ts && dotted[1..] == bare;
    DotClaims(Punct('.'));
    Peek(true, bare);
    Peek(false, dotted);
    Rebuilt(Expand(true, bare), Id(name), Expand(false, ts));
    Rebuilt(Expand(false, dotted), Punct('.'), Expand(true, bare));
  }

  lemma Rebuilt(ts: seq<Tok>, t: Tok, rest: seq<Tok>)
    requires ts != [] && ts[0] == t && ts[1..] == rest
    ensures ts == [t] + rest
  {
  }

  lemma NameIsBare(name: string, ts: seq<Tok>)
    requires Ended(ts) && RootFor(name).None? && !IsPunct(ts[0], '(')
    ensures IsBare([Id(name)] + ts)
  {
    hide RootFor, IsPunct;
  }

  lemma TokensAlike(name: string, ts: seq<Tok>)
    requires Ended(ts) && RootFor(name).None? && !IsPunct(ts[0], '(')
    ensures ParseTokens([Id(name)] + ts) == ParseTokens([Id("state"), Punct('.'), Id(name)] + ts)
  {
    hide *;
    var bare := [Id(name)] + ts;
    var dotted := [Punct('.')] + bare;
    var full := [Id("state")] + dotted;
    EndedAfter([Id(name)], ts);
    EndedAfter([Punct('.')], bare);
    EndedAfter([Id("state")], dotted);
    assert bare[1..] == ts && full[1..] == dotted;
    NameIsBare(name, ts);
    RootIsNotBare(dotted);
    BareNamesAreState(bare);
    BareNamesAreState(full);
    NameExpands(bare);
    NameExpands(full);
    SegmentStays(name, ts);
    assert [Id("state"), Punct('.'), Id(name)] + ts == full;
    assert [Id("state"), Punct('.'), Id(name)] + Expand(false, ts) == [Id("state")] + ([Punct('.')] + ([Id(name)] + Expand(false, ts)));
  }

  lemma RootIsNotBare(ts: seq<Tok>)
    ensures !IsBare([Id("state")] + ts)
  {
    StateIsRoot();
    hide RootFor;
  }

  lemma TightPair(name: string, tail: string)
    requires ValidName(name) && (tail == "" || !IsSpace(tail[|tail| - 1]))
    ensures name + tail != [] && Tight(name + tail) && Tight("state" + ("." + (name + tail)))
  {
    SpanIsNotSpace(name);
    var bare, full := name + tail, "state" + ("." + (name + tail));
    assert bare[0] == name[0] && full[0] == 's';
    assert bare[|bare| - 1] == full[|full| - 1] == if tail == "" then name[|name| - 1] else tail[|tail| - 1];
    hide WordSpan, KeywordFor;
  }

  // A name that is no root and is not called reads as that name under `state`, whatever follows it.
  lemma BareNameIsState(name: string, tail: string)
    requires ValidName(name) && RootFor(name).None?
    requires EndsWord(tail) && (tail == "" || !IsSpace(tail[|tail| - 1]))
    requires Lex(tail).Some? ==> !IsPunct(Lex(tail).value[0], '(')
    ensures ParseText(name + tail) == ParseText("state." + name + tail)
  {
    hide *;
    var bare, full := name + tail, "state" + ("." + (name + tail));
    assert "state." + name + tail == full;
    TightPair(name, tail);
    TightParses(bare);
    TightParses(full);
    NameLexes(name, tail);
    StateDotLexes(bare);
    NamesPrepended(name, Lex(tail));
    if Lex(tail).Some? {
      LexEnds(tail);
      TokensAlike(name, Lex(tail).value);
    }
  }

  lemma LexEnds(s: string)
    ensures Lex(s).Some? ==> Ended(Lex(s).value)
  {
    hide Lex;
  }

  lemma NamesPrepended(name: string, rest: Option<seq<Tok>>)
    ensures Prepend([Id(name)], rest) == if rest.None? then None else Some([Id(name)] + rest.value)
    ensures Prepend([Id("state"), Punct('.')], Prepend([Id(name)], rest))
         == if rest.None? then None else Some([Id("state"), Punct('.'), Id(name)] + rest.value)
  {
    if rest.Some? {
      assert [Id("state"), Punct('.')] + ([Id(name)] + rest.value) == [Id("state"), Punct('.'), Id(name)] + rest.value;
    }
  }

  // ----- `contains`

  lemma ContainsTokens(a: Expr, b: Expr, rest: seq<Tok>)
    requires Ended(rest)
    ensures var after := Print(b, 5) + rest;
      var middle := [Kw(KContains)] + after;
      && Print(a, 5) + [Kw(KContains)] + Print(b, 5) + rest == Print(a, 5) + middle
      && Ended(after) && Ended(middle) && Ended(Print(a, 5) + middle) && middle[1..] == after
  {
    hide Print;
  }

  lemma ContainsStep(ts: seq<Tok>, a: Expr, b: Expr, after: seq<Tok>, rest: seq<Tok>)
    requires Ended(ts) && Ended(after) && Ended(rest)
    requires PAdd(ts) == Some((a, [Kw(KContains)] + after)) && PAdd(after) == Some((b, rest))
    ensures PComparison(ts) == Some((Membership(b, a, false), rest))
  {
    assert ([Kw(KContains)] + after)[1..] == after;
    hide PAdd, KeywordText;
    assert !IsKw(Kw(KContains), KIn);
  }

  lemma ContainsExtends(rest: seq<Tok>)
    ensures Extends(([Kw(KContains)] + rest)[0]) == 4
  {
  }

  lemma MembershipParts(a: Expr, b: Expr)
    requires Writable(Membership(a, b, false)) && Clean(Membership(a, b, false), 0)
    ensures Writable(a) && Writable(b) && Clean(a, 5) && Clean(b, 5)
    ensures Print(a, 5)[0] != NOT_STRING && Print(a, 5)[0] != Kw(KNot)
  {
    PrintStarts(a, 5);
    var e := Membership(a, b, false);
    assert Bare(e)[0] == Print(a, 5)[0];
    hide Print;
  }

  lemma SumReads(e: Expr, rest: seq<Tok>)
    requires Writable(e) && Clean(e, 5) && Ended(rest) && Extends(rest[0]) <= 4
    ensures Ended(Print(e, 5) + rest) && PAdd(Print(e, 5) + rest) == Some((e, rest))
  {
    hide Print, Writable, Clean, PAdd;
    PrintReads(e, 5, rest);
    StopsBelow(5, e, rest);
  }

  lemma NotNegated(t: Tok)
    requires t != NOT_STRING && t != Kw(KNot)
    ensures !IsKw(t, KNot)
  {
  }

  // `a contains b` is `b in a`.
  lemma ContainsSwaps(a: Expr, b: Expr)
    requires Writable(Membership(a, b, false)) && Clean(Membership(a, b, false), 0)
    ensures ParseTokens(Print(a, 5) + [Kw(KContains)] + Print(b, 5) + [Eof]) == Some(Membership(b, a, false))
  {
    hide Print, Writable, Clean, POr, PComparison, PAdd, IsKw, Extends;
    MembershipParts(a, b);
    var after := Print(b, 5) + [Eof];
    var ts := Print(a, 5) + ([Kw(KContains)] + after);
    ContainsTokens(a, b, [Eof]);
    ContainsExtends(after);
    EofCloses();
    SumReads(a, [Kw(KContains)] + after);
    SumReads(b, [Eof]);
    ContainsStep(ts, a, b, after, [Eof]);
    NotNegated(ts[0]);
    ReadDown(0, 4, ts, Membership(b, a, false), [Eof]);
    OrStops(Membership(b, a, false), [Eof]);
  }

  lemma ContainsTextSwaps(a: Expr, b: Expr)
    requires Writable(Membership(a, b, false)) && Clean(Membership(a, b, false), 0)
    ensures ParseText(RenderAll(Print(a, 5) + [Kw(KContains)] + Print(b, 5))) == Ok(Membership(b, a, false))
  {
    var ts := Print(a, 5) + [Kw(KContains)] + Print(b, 5);
    MembershipParts(a, b);
    PrintWrites(a, 5);
    PrintWrites(b, 5);
    ContainsSwaps(a, b);
    hide Print, ParseTokens, Lex, RenderAll, Writable, Clean, Writes, ParseText, Tight;
    assert Writes(Kw(KContains)) by { KeywordWrites(); }
    assert AllWrite(ts);
    AllRead(ts);
    TightParses(RenderAll(ts));
  }

  lemma KeywordWrites()
    ensures Writes(Kw(KContains))
  {
  }

  // Brackets around a whole expression change nothing.
  lemma BracketsAreIdle(e: Expr)
    requires Writable(e) && Clean(e, 0)
    ensures ParseTokens([Punct('(')] + (Print(e, 0) + [Punct(')'), Eof])) == Some(e)
  {
    hide Print, Writable, Clean, POr, PPrimary, IsKw, Extends;
    var close := [Punct(')')] + [Eof];
    assert [Punct(')'), Eof] == close;
    var inside := Print(e, 0) + close;
    var ts := [Punct('(')] + inside;
    PunctuationCloses(')');
    EofCloses();
    BracketIsNoKeyword();
    PhraseReads(e, close);
    BracketsRead(e, inside, [Eof]);
    ReadDown(0, 8, ts, e, [Eof]);
    OrStops(e, [Eof]);
  }

  lemma BracketIsNoKeyword()
    ensures !IsKw(Punct('('), KNot)
  {
  }

  // Nothing but spaces is the empty expression, and nothing else is.
  lemma EmptyExactly(text: string)
    ensures ParseText(text) == Err(ParseError.Empty) <==> AllSpaces(text)
  {
    var i, j := StripExactly(text);
    hide Lex, ParseTokens, Strip, AllSpaces;
  }

  lemma EofCloses()
    ensures Extends(Eof) == 0
  {
  }

  // ----- what cannot follow an expression

  // An expression is read to its end: anything that cannot extend it is refused.
  lemma TrailingRefused(e: Expr, rest: seq<Tok>)
    requires Writable(e) && Clean(e, 0) && Ended(rest) && Extends(rest[0]) == 0 && rest[0] != Eof
    ensures ParseTokens(Print(e, 0) + rest) == None
  {
    hide Print, Writable, Clean, POr;
    PhraseReads(e, rest);
  }

  predicate IsComparison(op: BinOp) { op in {Eq, Ne, Lt, Le, Gt, Ge} }

  lemma ComparisonParts(op: BinOp, a: Expr, b: Expr)
    requires IsComparison(op) && Writable(Binary(op, a, b)) && Clean(Binary(op, a, b), 0)
    ensures Writable(a) && Writable(b) && Clean(a, 5) && Clean(b, 5)
    ensures Print(a, 5)[0] != NOT_STRING && Print(a, 5)[0] != Kw(KNot)
    ensures Print(Binary(op, a, b), 0) == Print(a, 5) + [OpToken(op)] + Print(b, 5)
  {
    PrintStarts(a, 5);
    var e := Binary(op, a, b);
    assert Bare(e)[0] == Print(a, 5)[0];
    hide Print;
  }

  lemma ComparisonStep(op: BinOp, ts: seq<Tok>, a: Expr, b: Expr, after: seq<Tok>, rest: seq<Tok>)
    requires IsComparison(op) && Ended(ts) && Ended(after) && Ended(rest) && !IsKw(ts[0], KNot)
    requires PAdd(ts) == Some((a, [OpToken(op)] + after)) && PAdd(after) == Some((b, rest))
    requires rest[0].OpTok?
    ensures POr(ts) == Some((Binary(op, a, b), rest))
  {
    assert ([OpToken(op)] + after)[1..] == after && ComparisonOp(OpToken(op)) == Some(op);
    hide PAdd, KeywordText;
    assert PComparison(ts) == Some((Binary(op, a, b), rest));
    assert PNot(ts) == PComparison(ts);
    assert PAnd(ts) == AndLoop(Binary(op, a, b), rest) == Some((Binary(op, a, b), rest));
  }

  lemma ComparisonExtends(op: BinOp, rest: seq<Tok>)
    requires IsComparison(op)
    ensures Extends(([OpToken(op)] + rest)[0]) == 4 && OpToken(op).OpTok?
  {
    hide KeywordText;
  }

  // Comparisons do not chain: one after another is no expression.
  lemma ChainsRefused(op: BinOp, a: Expr, b: Expr, next: BinOp, rest: seq<Tok>)
    requires IsComparison(op) && IsComparison(next) && Ended(rest)
    requires Writable(Binary(op, a, b)) && Clean(Binary(op, a, b), 0)
    ensures ParseTokens(Print(Binary(op, a, b), 0) + ([OpToken(next)] + rest)) == None
  {
    hide Print, Writable, Clean, POr, PAdd, IsKw, Extends, OpToken;
    ComparisonParts(op, a, b);
    var more := [OpToken(next)] + rest;
    var after := Print(b, 5) + more;
    var ts := Print(a, 5) + ([OpToken(op)] + after);
    assert Print(Binary(op, a, b), 0) + more == ts;
    ComparisonExtends(op, after);
    ComparisonExtends(next, rest);
    SumReads(b, more);
    SumReads(a, [OpToken(op)] + after);
    NotNegated(ts[0]);
    ComparisonStep(op, ts, a, b, after, more);
  }

  // ----- numbers with a dot

  predicate Digits(s: string) { forall i :: 0 <= i < |s| ==> IsDigit(s[i]) }

  lemma {:induction false} DigitsJoin(a: string, b: string)
    ensures DigitsValue(a + b) == DigitsValue(a) * TenTo(|b|) + DigitsValue(b)
    decreases |b|
  {
    if b == [] {
      assert a + b == a;
    } else {
      var init, ab := b[..|b| - 1], a + b;
      assert ab[..|ab| - 1] == a + init && ab[|ab| - 1] == b[|b| - 1];
      DigitsJoin(a, init);
      TimesTen(DigitsValue(a), TenTo(|init|), DigitsValue(init));
    }
  }

  lemma TimesTen(x: nat, t: nat, y: nat)
    ensures (x * t + y) * 10 == x * (10 * t) + y * 10
  {
  }

  lemma {:induction false} DotAfter(a: string, rest: string)
    requires Digits(a)
    ensures DotAt(a + ("." + rest)) == |a| && DotAt(a) == |a|
  {
    var s := a + ("." + rest);
    if a == [] {
      assert s == "." + rest;
    } else {
      assert s[1..] == a[1..] + ("." + rest);
      DotAfter(a[1..], rest);
    }
  }

  // The value of a decimal is its whole part and so many tenths, hundredths, and so on.
  lemma DecimalValue(whole: string, fraction: string)
    requires Digits(whole) && Digits(fraction)
    ensures NumberValue(whole + ("." + fraction))
         == Some(VFloat(DigitsValue(whole) as real + DigitsValue(fraction) as real / TenTo(|fraction|) as real))
  {
    var raw := whole + ("." + fraction);
    hide *;
    DotAfter(whole, fraction);
    DotAfter(fraction, "");
    SplitAtDot(raw, whole, fraction);
    FractionAdds(whole, fraction);
  }

  lemma SplitAtDot(raw: string, whole: string, fraction: string)
    requires raw == whole + ("." + fraction) && DotAt(raw) == |whole| && DotAt(fraction) == |fraction|
    ensures NumberValue(raw) == Some(VFloat(DigitsValue(whole + fraction) as real / TenTo(|fraction|) as real))
  {
    hide DigitsValue, DotAt, TenTo;
    assert raw[|whole| + 1..] == fraction && raw[..|whole|] == whole;
  }

  lemma FractionAdds(whole: string, fraction: string)
    ensures DigitsValue(whole + fraction) as real / TenTo(|fraction|) as real
         == DigitsValue(whole) as real + DigitsValue(fraction) as real / TenTo(|fraction|) as real
  {
    hide DigitsValue, TenTo;
    DigitsJoin(whole, fraction);
    WholePlusFraction(DigitsValue(whole), TenTo(|fraction|), DigitsValue(fraction));
  }

  lemma {:induction false} ProductOfNats(x: nat, t: nat)
    ensures (x * t) as real == x as real * t as real
    decreases x
  {
    if x > 0 {
      ProductOfNats(x - 1, t);
      assert x * t == (x - 1) * t + t;
    }
  }

  lemma WholePlusFraction(x: nat, t: nat, y: nat)
    requires t > 0
    ensures (x * t + y) as real / t as real == x as real + y as real / t as real
  {
    ProductOfNats(x, t);
    var r := t as real;
    assert (x as real * r + y as real) / r == x as real + y as real / r;
  }

  // A second dot is refused.
  lemma SecondDotRefused(whole: string, fraction: string, more: string)
    requires Digits(whole) && Digits(fraction)
    ensures NumberValue(whole + ("." + (fraction + ("." + more)))) == None
  {
    var raw := whole + ("." + (fraction + ("." + more)));
    DotAfter(whole, fraction + ("." + more));
    DotAfter(fraction, more);
    assert raw[|whole| + 1..] == fraction + ("." + more);
    hide DigitsValue, DotAt;
  }

  lemma {:induction false} DigitsAndDotsSpan(s: string)
    requires forall i :: 0 <= i < |s| ==> IsNumberChar(s[i])
    ensures NumberSpan(s) == |s|
  {
    if s != [] {
      DigitsAndDotsSpan(s[1..]);
    }
  }

  lemma NumberParses(raw: string)
    requires raw != [] && IsDigit(raw[0]) && forall i :: 0 <= i < |raw| ==> IsNumberChar(raw[i])
    ensures ParseText(raw) == if NumberValue(raw).None? then Err(Syntax) else Ok(Literal(NumberValue(raw).value))
  {
    DigitsAndDotsSpan(raw);
    AllRead([Num(raw)]);
    TightParses(raw);
    NumberIsPrimary(raw);
    hide Lex, ParseTokens, NumberValue, NumberSpan, ParseText, Tight;
  }

  lemma NumberIsPrimary(raw: string)
    ensures ParseTokens([Num(raw)] + [Eof]) == if NumberValue(raw).None? then None else Some(Literal(NumberValue(raw).value))
  {
    var ts := [Num(raw)] + [Eof];
    assert ts[1..] == [Eof];
    hide NumberValue, KeywordText;
    var r := PPrimary(ts);
    assert r == PAtom(ts);
    assert r == if NumberValue(raw).None? then None else Some((Literal(NumberValue(raw).value), [Eof]));
    assert PUnary(ts) == r;
    assert PMul(ts) == r && PAdd(ts) == r;
    assert PComparison(ts) == r && PNot(ts) == r;
    assert PAnd(ts) == r && POr(ts) == r;
  }

  // A whole number in digits, a decimal, and two dots, as texts.
  lemma NumbersRead(whole: string, fraction: string, more: string)
    requires whole != [] && Digits(whole) && Digits(fraction) && Digits(more)
    ensures ParseText(whole) == Ok(Literal(VInt(DigitsValue(whole))))
    ensures ParseText(whole + ("." + fraction))
         == Ok(Literal(VFloat(DigitsValue(whole) as real + DigitsValue(fraction) as real / TenTo(|fraction|) as real)))
    ensures ParseText(whole + ("." + (fraction + ("." + more)))) == Err(Syntax)
  {
    NumberParses(whole);
    NumberParses(whole + ("." + fraction));
    NumberParses(whole + ("." + (fraction + ("." + more))));
    DotAfter(whole, "");
    DecimalValue(whole, fraction);
    SecondDotRefused(whole, fraction, more);
    hide ParseText, DigitsValue, DotAt, TenTo;
  }

  // ----- strings and words

  // A backslash before every character.
  function Slashed(s: string): string {
    if s == [] then [] else ['\\', s[0]] + Slashed(s[1..])
  }

  // Between quotes of either kind a backslash stands for the character behind it, whatever that is.
  lemma {:induction false} SlashedReads(quote: char, s: string, rest: string)
    requires quote != '\\'
    ensures StringBody(quote, Slashed(s) + ([quote] + rest)) == Some((s, rest))
  {
    var text := Slashed(s) + ([quote] + rest);
    if s == [] {
      assert text == [quote] + rest && text[1..] == rest;
    } else {
      var tail := Slashed(s[1..]) + ([quote] + rest);
      assert text == ['\\', s[0]] + tail && text[2..] == tail;
      SlashedReads(quote, s[1..], rest);
      assert s == [s[0]] + s[1..];
    }
  }

  lemma {:induction false} PlainReads(quote: char, s: string, rest: string)
    requires quote != '\\' && quote !in s && '\\' !in s
    ensures StringBody(quote, s + ([quote] + rest)) == Some((s, rest))
  {
    var text := s + ([quote] + rest);
    if s == [] {
      assert text == [quote] + rest && text[1..] == rest;
    } else {
      assert text[1..] == s[1..] + ([quote] + rest);
      PlainReads(quote, s[1..], rest);
      assert s == [s[0]] + s[1..];
    }
  }

  // Single and double quotes write the same literal.
  lemma QuotesAlike(s: string, rest: string)
    requires '\'' !in s && '"' !in s && '\\' !in s
    ensures FirstToken("'" + (s + ("'" + rest))) == FirstToken("\"" + (s + ("\"" + rest))) == Some((Str(s), rest))
  {
    var one, two := "'" + (s + ("'" + rest)), "\"" + (s + ("\"" + rest));
    PlainReads('\'', s, rest);
    PlainReads('"', s, rest);
    assert one[1..] == s + ("'" + rest) && two[1..] == s + ("\"" + rest);
    hide StringBody, KeywordFor;
  }

  // A quantifier without a bound of its own ranges over at most 64 members.
  lemma DefaultBound(kind: Quantifier, variable: string, domain: Expr, body: Expr)
    requires ValidName(variable) && Writable(domain) && Writable(body) && Clean(domain, 0) && Clean(body, 0)
    ensures ParseText(Written(CollectionPred(kind, variable, domain, body, 64))) == Ok(CollectionPred(kind, variable, domain, body, 64))
  {
    var e := CollectionPred(kind, variable, domain, body, 64);
    assert Writable(e) && Clean(e, 0);
    hide Writable, Clean, ParseText, Written;
    TextRoundTrip(e);
  }
}
