/** Tokens written out as characters, and read back by the tokenizer. */
module ExprText {
  import opened Wrappers
  import opened Text
  import opened ExprAst
  import opened ExprLexer
  import opened ExprGrammar
  import opened ExprPrinter
  import opened ExprParser
  import opened ExprRoundTrip

  function Escaped(s: string): string {
    if s == [] then []
    else (if s[0] == '\\' || s[0] == '\'' then ['\\', s[0]] else [s[0]]) + Escaped(s[1..])
  }

  function Render(t: Tok): string {
    match t
    case OpTok(op) => OpText(op)
    case Punct(c) => [c]
    case Str(s) => "'" + Escaped(s) + "'"
    case Num(raw) => raw
    case Kw(k) => KeywordText(k)
    case Id(name) => name
    case Eof => ""
  }

  // Tokens separated by single spaces.
  function RenderAll(ts: seq<Tok>): string {
    if ts == [] then ""
    else if |ts| == 1 then Render(ts[0])
    else Render(ts[0]) + " " + RenderAll(ts[1..])
  }

  predicate Writes(t: Tok) {
    match t
    case Punct(c) => c in PUNCTUATION
    case Num(raw) => raw != [] && IsDigit(raw[0]) && NumberSpan(raw) == |raw|
    case Id(name) => ValidName(name)
    case Eof => false
    case _ => true
  }

  // Where a rendered token may stop: the end of the text, or a space.
  predicate Boundary(s: string) { s == [] || s[0] == ' ' }

  // ----- one token

  lemma OneCharacterReads(c: char, tail: string)
    ensures var escaped := if c == '\\' || c == '\'' then ['\\', c] else [c];
      StringBody('\'', escaped + tail) == Buffered([c], StringBody('\'', tail))
  {
    assert (['\\', c] + tail)[2..] == tail && ([c] + tail)[1..] == tail;
  }

  lemma {:induction false} EscapedReads(s: string, rest: string)
    ensures StringBody('\'', Escaped(s) + "'" + rest) == Some((s, rest))
  {
    var text := Escaped(s) + "'" + rest;
    if s == [] {
      assert text == "'" + rest && text[1..] == rest;
    } else {
      var tail := Escaped(s[1..]) + "'" + rest;
      var first := if s[0] == '\\' || s[0] == '\'' then ['\\', s[0]] else [s[0]];
      EscapedReads(s[1..], rest);
      OneCharacterReads(s[0], tail);
      assert s == [s[0]] + s[1..];
      assert text == first + tail;
      hide StringBody;
    }
  }

  lemma {:induction false} WordStops(word: string, rest: string)
    requires WordSpan(word) == |word| && Boundary(rest)
    ensures WordSpan(word + rest) == |word|
  {
    if word == [] {
      assert word + rest == rest;
    } else {
      assert (word + rest)[1..] == word[1..] + rest;
      WordStops(word[1..], rest);
    }
  }

  lemma {:induction false} NumberStops(raw: string, rest: string)
    requires NumberSpan(raw) == |raw| && Boundary(rest)
    ensures NumberSpan(raw + rest) == |raw|
  {
    if raw == [] {
      assert raw + rest == rest;
    } else {
      assert (raw + rest)[1..] == raw[1..] + rest;
      NumberStops(raw[1..], rest);
    }
  }

  predicate LowerWord(s: string) {
    s != [] && IsWordStart(s[0]) && forall i :: 0 <= i < |s| ==> 'a' <= s[i] <= 'z'
  }

  lemma {:induction false} LowerWordSpans(s: string)
    requires forall i :: 0 <= i < |s| ==> 'a' <= s[i] <= 'z'
    ensures WordSpan(s) == |s| && Lower(s) == s
  {
    if s != [] {
      LowerWordSpans(s[1..]);
      assert s == [s[0]] + s[1..];
    }
  }

  lemma {:induction false} KeywordFound(k: Keyword, ks: seq<Keyword>)
    requires k in ks
    ensures FindKeyword(KeywordText(k), ks) == Some(k)
  {
    KeywordsDiffer(k, ks[0]);
    hide KeywordText;
    if ks[0] != k {
      KeywordFound(k, ks[1..]);
    }
  }

  lemma {:induction false} NoKeywordFound(word: string, ks: seq<Keyword>)
    requires forall k :: k in ks ==> word != KeywordText(k)
    ensures FindKeyword(word, ks) == None
  {
    hide KeywordText;
    if ks != [] {
      assert ks[0] in ks;
      NoKeywordFound(word, ks[1..]);
    }
  }

  lemma KeywordSpells(k: Keyword)
    ensures KeywordFor(KeywordText(k)) == Some(k) && WordSpan(KeywordText(k)) == |KeywordText(k)|
    ensures KeywordText(k) != [] && IsWordStart(KeywordText(k)[0])
  {
    assert LowerWord(KeywordText(k));
    LowerWordSpans(KeywordText(k));
    assert k in KEYWORDS;
    KeywordFound(k, KEYWORDS);
    hide KeywordText, FindKeyword;
  }

  // ----- what the lexer makes

  lemma FirstTokenLexed(s: string)
    requires s != [] && FirstToken(s).Some?
    ensures Lexed(FirstToken(s).value.0)
  {
    var t := FirstToken(s).value.0;
    if t.Id? {
      assert t.name == s[..WordSpan(s)] && t.name[0] == s[0];
      forall k
        ensures t.name != KeywordText(k)
      {
        KeywordSpells(k);
      }
    } else if t.Num? {
      assert t.raw == s[..NumberSpan(s)] && t.raw[0] == s[0];
    }
    hide KeywordFor, DoubleOp, SingleOp, StringBody, KeywordText;
  }

  // The tokenizer makes only tokens that the reading of `_match` is about.
  lemma {:induction false} TokensLexed(s: string)
    ensures Lex(s).Some? ==> forall t :: t in Lex(s).value ==> Lexed(t)
    decreases |s|
  {
    hide FirstToken, Lexed;
    if s != [] {
      if IsSpace(s[0]) {
        TokensLexed(s[1..]);
      } else if FirstToken(s).Some? {
        FirstTokenLexed(s);
        TokensLexed(FirstToken(s).value.1);
      }
    } else {
      EofLexed();
    }
  }

  lemma EofLexed()
    ensures Lexed(Eof)
  {
  }

  lemma OpReads(op: OpSymbol, rest: string)
    requires Boundary(rest)
    ensures FirstToken(OpText(op) + rest) == Some((OpTok(op), rest))
  {
    var s := OpText(op) + rest;
    assert s[|OpText(op)|..] == rest;
    hide StringBody, KeywordFor;
  }

  lemma WordStartIsNoOther(s: string)
    requires s != [] && IsWordStart(s[0])
    ensures DoubleOp(s).None? && SingleOp(s[0]).None? && s[0] !in PUNCTUATION && !IsDigit(s[0])
  {
  }

  lemma WordReads(word: string, rest: string)
    requires word != [] && IsWordStart(word[0]) && WordSpan(word) == |word| && Boundary(rest)
    ensures FirstToken(word + rest)
         == Some((if KeywordFor(word).Some? then Kw(KeywordFor(word).value) else Id(word), rest))
  {
    WordStops(word, rest);
    WordStartIsNoOther(word + rest);
    hide StringBody, KeywordFor, WordSpan, DoubleOp, SingleOp;
    var s := word + rest;
    assert s[0] == word[0] && s[..|word|] == word && s[|word|..] == rest;
  }

  lemma NumReads(raw: string, rest: string)
    requires Writes(Num(raw)) && Boundary(rest)
    ensures FirstToken(raw + rest) == Some((Num(raw), rest))
  {
    NumberStops(raw, rest);
    var s := raw + rest;
    assert s[0] == raw[0] && s[..|raw|] == raw && s[|raw|..] == rest;
    hide StringBody, KeywordFor, NumberSpan;
  }

  lemma StrReads(body: string, rest: string)
    ensures FirstToken("'" + Escaped(body) + "'" + rest) == Some((Str(body), rest))
  {
    var s := "'" + Escaped(body) + "'" + rest;
    EscapedReads(body, rest);
    assert s[0] == '\'' && s[1..] == Escaped(body) + "'" + rest;
    hide StringBody, KeywordFor;
  }

  lemma PunctReads(c: char, rest: string)
    requires c in PUNCTUATION
    ensures FirstToken([c] + rest) == Some((Punct(c), rest)) && !IsSpace(c)
  {
    assert ([c] + rest)[1..] == rest;
    hide StringBody, KeywordFor;
  }

  lemma OpIsNotSpace(op: OpSymbol)
    ensures OpText(op) != [] && !IsSpace(OpText(op)[0]) && !IsSpace(OpText(op)[|OpText(op)| - 1])
  {
  }

  lemma TokenReads(t: Tok, rest: string)
    requires Writes(t) && Boundary(rest)
    ensures Render(t) != [] && !IsSpace(Render(t)[0]) && !IsSpace(Render(t)[|Render(t)| - 1])
    ensures FirstToken(Render(t) + rest) == Some((t, rest))
  {
    hide FirstToken, KeywordFor, WordSpan, NumberSpan, Escaped, OpText, KeywordText;
    match t
    case OpTok(op) =>
      OpReads(op, rest);
      OpIsNotSpace(op);
    case Punct(c) =>
      PunctReads(c, rest);
    case Str(s) =>
      StrReads(s, rest);
    case Num(raw) =>
      NumReads(raw, rest);
      SpanIsNotSpace(raw);
    case Kw(k) =>
      KeywordSpells(k);
      WordReads(KeywordText(k), rest);
      SpanIsNotSpace(KeywordText(k));
    case Id(name) =>
      WordReads(name, rest);
      SpanIsNotSpace(name);
  }

  lemma {:induction false} SpanIsNotSpace(s: string)
    requires s != [] && (WordSpan(s) == |s| || NumberSpan(s) == |s|)
    ensures !IsSpace(s[0]) && !IsSpace(s[|s| - 1])
  {
    if |s| > 1 {
      SpanIsNotSpace(s[1..]);
    }
  }

  // ----- all tokens

  lemma {:induction false} AllRead(ts: seq<Tok>)
    requires ts != [] && forall t :: t in ts ==> Writes(t)
    ensures Lex(RenderAll(ts)) == Some(ts + [Eof])
    ensures Tight(RenderAll(ts)) && RenderAll(ts) != []
  {
    hide FirstToken, Render, Writes;
    var s := RenderAll(ts);
    assert ts[0] in ts;
    if |ts| == 1 {
      TokenReads(ts[0], "");
      assert s + "" == s;
      assert Lex("") == Some([Eof]);
      assert ts == [ts[0]];
    } else {
      var rest := " " + RenderAll(ts[1..]);
      AllRead(ts[1..]);
      TokenReads(ts[0], rest);
      assert s == Render(ts[0]) + rest;
      assert rest[1..] == RenderAll(ts[1..]) && IsSpace(rest[0]);
      assert Lex(rest) == Lex(rest[1..]);
      assert [ts[0]] + (ts[1..] + [Eof]) == ts + [Eof];
    }
  }

  // ----- everything the printer emits can be written

  lemma {:induction false} DecimalSpans(n: nat)
    ensures NumberSpan(Decimal(n)) == |Decimal(n)| && IsDigit(Decimal(n)[0])
  {
    if n >= 10 {
      DecimalSpans(n / 10);
      SpanGrows(Decimal(n / 10), ('0' as int + n % 10) as char);
    }
  }

  lemma {:induction false} SpanGrows(s: string, c: char)
    requires NumberSpan(s) == |s| && IsNumberChar(c)
    ensures NumberSpan(s + [c]) == |s| + 1
  {
    if s != [] {
      assert (s + [c])[1..] == s[1..] + [c];
      SpanGrows(s[1..], c);
    }
  }

  ghost predicate AllWrite(ts: seq<Tok>) { forall t :: t in ts ==> Writes(t) }

  lemma RootWrites(root: PathRoot)
    ensures ValidName(RootText(root))
  {
    LowerWordSpans(RootText(root));
    forall k
      ensures RootText(root) != KeywordText(k)
    {
    }
    NoKeywordFound(RootText(root), KEYWORDS);
  }

  lemma {:induction false} PathWrites(parts: seq<string>)
    requires forall p :: p in parts ==> ValidName(p)
    ensures AllWrite(PathTokens(parts))
  {
    hide ValidName;
    if parts != [] {
      PathWrites(parts[1..]);
    }
  }

  lemma {:induction false} BareWrites(e: Expr)
    requires Writable(e)
    ensures AllWrite(Bare(e))
    decreases e, 0
  {
    hide ValidName, KeywordFor;
    match e
    case Literal(value) =>
      if value.VInt? {
        DecimalSpans(value.i);
      }
    case PathRef(root, parts) =>
      RootWrites(root);
      PathWrites(parts);
    case Unary(uop, operand) =>
      PrintWrites(operand, if uop.NotOp? then 3 else 7);
    case Binary(op, left, right) =>
      PrintWrites(left, LeftLevel(op));
      PrintWrites(right, RightLevel(op));
    case Membership(item, collection, _) =>
      PrintWrites(item, 5);
      PrintWrites(collection, 5);
    case Conditional(test, thenBranch, elseBranch) =>
      PrintWrites(test, 0);
      PrintWrites(thenBranch, 0);
      PrintWrites(elseBranch, 0);
    case CollectionPred(_, _, domain, body, _) =>
      PrintWrites(domain, 0);
      PrintWrites(body, 0);
    case Call(_, args) =>
      ArgsWrite(args);
  }

  lemma {:induction false} PrintWrites(e: Expr, level: nat)
    requires Writable(e)
    ensures AllWrite(Print(e, level))
    decreases e, 1
  {
    BareWrites(e);
  }

  lemma {:induction false} ArgsWrite(args: seq<Expr>)
    requires forall a :: a in args ==> Writable(a)
    ensures AllWrite(PrintArgs(args))
    decreases args, 2
  {
    if args != [] {
      PrintWrites(args[0], 0);
      ArgsWrite(args[1..]);
    }
  }

  // ----- the round trip on text

  function Written(e: Expr): string {
    RenderAll(Print(e, 0))
  }

  // Printing a tree and parsing the text gives the tree back.
  lemma TextRoundTrip(e: Expr)
    requires Writable(e) && Clean(e, 0)
    ensures ParseText(Written(e)) == Ok(e)
  {
    PrintWrites(e, 0);
    hide Print, Lex, ParseTokens, Writable, Clean, RenderAll;
    AllRead(Print(e, 0));
    TightStrips(Written(e));
    TokensRoundTrip(e);
  }
}
