/** Which texts are laid out as which tokens: the tokenizer, said of the whole text at once. */
module ExprLexemes {
  import opened Wrappers
  import opened Text
  import opened ExprLexer
  import opened ExprGrammar
  import opened ExprParser
  import opened ExprText
  import opened ExprDerivations

  predicate Letter(c: char) { 'a' <= c <= 'z' || 'A' <= c <= 'Z' || c == '_' }

  predicate Digit(c: char) { '0' <= c <= '9' }

  // The rest of a string literal, up to and with its closing quote; a backslash stands for what follows it.
  predicate Closes(quote: char, w: string, s: string) {
    if w == [] then false
    else if w[0] == '\\' then |w| > 1 && s != [] && s[0] == w[1] && Closes(quote, w[2..], s[1..])
    else if w[0] == quote then |w| == 1 && s == []
    else s != [] && s[0] == w[0] && Closes(quote, w[1..], s[1..])
  }

  predicate Word(w: string) { w != [] && Letter(w[0]) && forall i :: 0 <= i < |w| ==> Letter(w[i]) || Digit(w[i]) }

  predicate Number(w: string) { w != [] && Digit(w[0]) && forall i :: 0 <= i < |w| ==> Digit(w[i]) || w[i] == '.' }

  // The text of a token.
  predicate IsTextOf(t: Tok, w: string) {
    match t
    case OpTok(op) => w == OpText(op)
    case Punct(c) => w == [c] && c in "()[]{}:.,"
    case Str(s) => |w| >= 2 && (w[0] == '\'' || w[0] == '"') && Closes(w[0], w[1..], s)
    case Num(raw) => w == raw && Number(w)
    case Kw(k) => Word(w) && Lower(w) == KeywordText(k)
    case Id(name) => w == name && Word(w) && forall k :: Lower(w) != KeywordText(k)
    case Eof => false
  }

  // A token is as long as it can be: words, numbers and operators run on.
  predicate EndsAt(t: Tok, s: string, n: nat)
    requires n <= |s|
  {
    match t
    case Num(_) => n == |s| || !(Digit(s[n]) || s[n] == '.')
    case Kw(_) => n == |s| || !(Letter(s[n]) || Digit(s[n]))
    case Id(_) => n == |s| || !(Letter(s[n]) || Digit(s[n]))
    case OpTok(_) => |s| >= 2 && s[..2] in ["==", "!=", "<=", ">=", "//"] ==> n == 2
    case _ => true
  }

  // The text is these tokens, in order, with spaces between them as it likes.
  predicate IsLayout(s: string, ts: seq<Tok>)
    decreases |s|
  {
    if s != [] && IsSpace(s[0]) then IsLayout(s[1..], ts)
    else if s == [] then ts == []
    else ts != [] && exists n :: 0 < n <= |s| && BeginsWith(s, n, ts)
  }

  predicate BeginsWith(s: string, n: nat, ts: seq<Tok>)
    requires 0 < n <= |s| && ts != []
    decreases |s|, 0
  {
    IsTextOf(ts[0], s[..n]) && EndsAt(ts[0], s, n) && IsLayout(s[n..], ts[1..])
  }

  // ----- one token

  lemma {:induction false} ClosingReads(quote: char, w: string, s: string, rest: string)
    requires quote != '\\' && Closes(quote, w, s)
    ensures StringBody(quote, w + rest) == Some((s, rest))
    decreases |w|
  {
    var text := w + rest;
    if w[0] == '\\' {
      assert text[2..] == w[2..] + rest;
      ClosingReads(quote, w[2..], s[1..], rest);
      assert s == [s[0]] + s[1..];
    } else if w[0] == quote {
      assert text[1..] == rest;
    } else {
      assert text[1..] == w[1..] + rest;
      ClosingReads(quote, w[1..], s[1..], rest);
      assert s == [s[0]] + s[1..];
    }
  }

  lemma {:induction false} ReadingCloses(quote: char, text: string) returns (w: string)
    requires quote != '\\' && StringBody(quote, text).Some?
    ensures var (s, rest) := StringBody(quote, text).value;
      text == w + rest && Closes(quote, w, s)
    decreases |text|
  {
    if text[0] == '\\' && |text| > 1 {
      var v := ReadingCloses(quote, text[2..]);
      w := [text[0], text[1]] + v;
      assert w[2..] == v && text == [text[0], text[1]] + text[2..];
    } else if text[0] == quote {
      w := [quote];
      assert text == [text[0]] + text[1..];
    } else {
      var v := ReadingCloses(quote, text[1..]);
      w := [text[0]] + v;
      assert w[1..] == v && text == [text[0]] + text[1..];
      ClosesSomething(quote, v, StringBody(quote, text[1..]).value.0);
    }
  }

  lemma ClosesSomething(quote: char, w: string, s: string)
    requires Closes(quote, w, s)
    ensures w != []
  {
  }

  lemma ClassesAgree(c: char)
    ensures IsWordStart(c) <==> Letter(c)
    ensures IsWordChar(c) <==> Letter(c) || Digit(c)
    ensures IsDigit(c) <==> Digit(c)
    ensures IsNumberChar(c) <==> Digit(c) || c == '.'
    ensures c in PUNCTUATION <==> c in "()[]{}:.,"
  {
  }

  lemma {:induction false} WordSpanExactly(s: string, n: nat)
    requires n <= |s| && (forall i :: 0 <= i < n ==> IsWordChar(s[i])) && (n == |s| || !IsWordChar(s[n]))
    ensures WordSpan(s) == n
  {
    if n > 0 {
      WordSpanExactly(s[1..], n - 1);
    }
  }

  lemma {:induction false} WordSpanMeans(s: string)
    ensures var n := WordSpan(s);
      (forall i :: 0 <= i < n ==> IsWordChar(s[i])) && (n == |s| || !IsWordChar(s[n]))
  {
    if s != [] && IsWordChar(s[0]) {
      WordSpanMeans(s[1..]);
      assert forall i :: 1 <= i < WordSpan(s) ==> s[i] == s[1..][i - 1];
    }
  }

  lemma {:induction false} NumberSpanExactly(s: string, n: nat)
    requires n <= |s| && (forall i :: 0 <= i < n ==> IsNumberChar(s[i])) && (n == |s| || !IsNumberChar(s[n]))
    ensures NumberSpan(s) == n
  {
    if n > 0 {
      NumberSpanExactly(s[1..], n - 1);
    }
  }

  lemma {:induction false} NumberSpanMeans(s: string)
    ensures var n := NumberSpan(s);
      (forall i :: 0 <= i < n ==> IsNumberChar(s[i])) && (n == |s| || !IsNumberChar(s[n]))
  {
    if s != [] && IsNumberChar(s[0]) {
      NumberSpanMeans(s[1..]);
      assert forall i :: 1 <= i < NumberSpan(s) ==> s[i] == s[1..][i - 1];
    }
  }

  // A token in front, of whatever kind, is the one the tokenizer reads.
  lemma FrontReads(t: Tok, s: string, n: nat)
    requires 0 < n <= |s| && IsTextOf(t, s[..n]) && EndsAt(t, s, n)
    ensures !IsSpace(s[0]) && FirstToken(s) == Some((t, s[n..]))
  {
    hide FirstToken, IsSpace;
    match t
    case OpTok(op) => OperatorFront(op, s, n);
    case Punct(c) => PunctFront(c, s, n);
    case Str(body) => StringFront(body, s, n);
    case Num(raw) => NumberFront(raw, s, n);
    case Kw(k) => WordFront(t, s, n);
    case Id(name) => WordFront(t, s, n);
  }

  lemma OperatorFront(op: OpSymbol, s: string, n: nat)
    requires 0 < n <= |s| && s[..n] == OpText(op) && EndsAt(OpTok(op), s, n)
    ensures !IsSpace(s[0]) && FirstToken(s) == Some((OpTok(op), s[n..]))
  {
    OpIsNotSpace(op);
    OpSizes(op);
    assert s[0] == OpText(op)[0];
    hide StringBody, KeywordFor, WordSpan, NumberSpan, IsSpace;
    if n == 2 {
      assert s[1] == OpText(op)[1];
    } else if |s| >= 2 {
      TwoCharacters(s);
    }
  }

  lemma OpSizes(op: OpSymbol)
    ensures |OpText(op)| == 2 <==> op in {EqEq, NotEq, LessEq, GreaterEq, SlashSlash}
    ensures 1 <= |OpText(op)| <= 2
  {
  }

  lemma TwoCharacters(s: string)
    requires |s| >= 2
    ensures DoubleOp(s).Some? <==> s[..2] in ["==", "!=", "<=", ">=", "//"]
  {
    assert s[..2] == [s[0], s[1]];
  }

  lemma PunctFront(c: char, s: string, n: nat)
    requires 0 < n <= |s| && s[..n] == [c] && c in "()[]{}:.,"
    ensures !IsSpace(s[0]) && FirstToken(s) == Some((Punct(c), s[n..]))
  {
    assert |s[..n]| == 1 && s[..n][0] == s[0];
    ClassesAgree(c);
    PunctReads(c, s[1..]);
    assert [c] + s[1..] == s;
    hide FirstToken, IsSpace;
  }

  lemma StringFront(body: string, s: string, n: nat)
    requires 2 <= n <= |s| && (s[0] == '\'' || s[0] == '"') && Closes(s[0], s[..n][1..], body)
    ensures !IsSpace(s[0]) && FirstToken(s) == Some((Str(body), s[n..]))
  {
    ClosingReads(s[0], s[..n][1..], body, s[n..]);
    assert s[..n][1..] + s[n..] == s[1..];
    hide StringBody, KeywordFor, WordSpan, NumberSpan, Closes;
  }

  lemma NumberFront(raw: string, s: string, n: nat)
    requires 0 < n <= |s| && s[..n] == raw && Number(raw) && EndsAt(Num(raw), s, n)
    ensures !IsSpace(s[0]) && FirstToken(s) == Some((Num(raw), s[n..]))
  {
    assert s[0] == raw[0];
    forall i | 0 <= i < n
      ensures IsNumberChar(s[i])
    {
      assert s[i] == raw[i];
    }
    NumberSpanExactly(s, n);
    hide StringBody, KeywordFor, WordSpan, NumberSpan;
  }

  lemma WordFront(t: Tok, s: string, n: nat)
    requires (t.Kw? || t.Id?) && 0 < n <= |s| && IsTextOf(t, s[..n]) && EndsAt(t, s, n)
    ensures !IsSpace(s[0]) && FirstToken(s) == Some((t, s[n..]))
  {
    var w := s[..n];
    assert s[0] == w[0];
    forall i | 0 <= i < n
      ensures IsWordChar(s[i])
    {
      assert s[i] == w[i];
    }
    WordSpanExactly(s, n);
    WordKeyword(t, w);
    WordStartIsNoOther(s);
    hide StringBody, KeywordFor, WordSpan, NumberSpan, DoubleOp, SingleOp, Lower, KeywordText;
  }

  lemma WordKeyword(t: Tok, w: string)
    requires (t.Kw? || t.Id?) && IsTextOf(t, w)
    ensures KeywordFor(w) == if t.Kw? then Some(t.k) else None
  {
    hide Lower, KeywordText;
    if t.Kw? {
      assert t.k in KEYWORDS by { KeywordsListed(t.k); }
      KeywordFound(t.k, KEYWORDS);
    } else {
      NoKeywordFound(Lower(w), KEYWORDS);
    }
  }

  lemma KeywordsListed(k: Keyword)
    ensures k in KEYWORDS
  {
  }

  // What the tokenizer reads in front is such a token.
  lemma FrontIsToken(s: string) returns (n: nat)
    requires s != [] && FirstToken(s).Some?
    ensures 0 < n <= |s| && IsTextOf(FirstToken(s).value.0, s[..n]) && EndsAt(FirstToken(s).value.0, s, n)
    ensures FirstToken(s).value.1 == s[n..]
  {
    hide StringBody, KeywordFor, WordSpan, NumberSpan, Lower, KeywordText, Closes;
    var (t, rest) := FirstToken(s).value;
    match t
    case OpTok(op) =>
      n := |OpText(op)|;
      OperatorRead(s);
    case Punct(c) =>
      n := 1;
      ClassesAgree(c);
      assert s[..1] == [c];
    case Str(body) =>
      var w := ReadingCloses(s[0], s[1..]);
      n := 1 + |w|;
      ClosesSomething(s[0], w, body);
      assert s == [s[0]] + s[1..] && s[..n][1..] == w && s[n..] == rest;
    case Num(raw) =>
      n := NumberSpan(s);
      NumberRead(s);
    case Kw(k) =>
      n := WordSpan(s);
      WordRead(s);
    case Id(name) =>
      n := WordSpan(s);
      WordRead(s);
  }

  lemma OperatorRead(s: string)
    requires s != [] && FirstToken(s).Some? && FirstToken(s).value.0.OpTok?
    ensures var (t, rest) := FirstToken(s).value;
      var n := |OpText(t.op)|;
      0 < n <= |s| && s[..n] == OpText(t.op) && EndsAt(t, s, n) && rest == s[n..]
  {
    hide StringBody, KeywordFor, WordSpan, NumberSpan;
    if |s| >= 2 {
      TwoCharacters(s);
      assert s[..2] == [s[0], s[1]];
    }
    assert s[..1] == [s[0]];
  }

  lemma NumberShape(s: string)
    requires s != [] && FirstToken(s).Some? && FirstToken(s).value.0.Num?
    ensures IsDigit(s[0]) && FirstToken(s) == Some((Num(s[..NumberSpan(s)]), s[NumberSpan(s)..]))
  {
    hide StringBody, KeywordFor, WordSpan, NumberSpan, DoubleOp, SingleOp, IsDigit;
  }

  lemma NumberRead(s: string)
    requires s != [] && FirstToken(s).Some? && FirstToken(s).value.0.Num?
    ensures var (t, rest) := FirstToken(s).value;
      var n := NumberSpan(s);
      0 < n <= |s| && IsTextOf(t, s[..n]) && EndsAt(t, s, n) && rest == s[n..]
  {
    hide *;
    NumberShape(s);
    NumberSpanMeans(s);
    NumberSlice(s, NumberSpan(s));
  }

  lemma NumberSlice(s: string, n: nat)
    requires n <= |s| && s != [] && IsDigit(s[0])
    requires (forall i :: 0 <= i < n ==> IsNumberChar(s[i])) && (n == |s| || !IsNumberChar(s[n]))
    ensures n > 0 && IsTextOf(Num(s[..n]), s[..n]) && EndsAt(Num(s[..n]), s, n)
  {
  }

  lemma WordShape(s: string)
    requires s != [] && FirstToken(s).Some? && (FirstToken(s).value.0.Kw? || FirstToken(s).value.0.Id?)
    ensures var w := s[..WordSpan(s)];
      && IsWordStart(s[0]) && FirstToken(s).value.1 == s[WordSpan(s)..]
      && FirstToken(s).value.0 == if KeywordFor(w).Some? then Kw(KeywordFor(w).value) else Id(w)
  {
    hide StringBody, KeywordFor, WordSpan, NumberSpan, DoubleOp, SingleOp, IsWordStart;
  }

  lemma WordRead(s: string)
    requires s != [] && FirstToken(s).Some? && (FirstToken(s).value.0.Kw? || FirstToken(s).value.0.Id?)
    ensures var (t, rest) := FirstToken(s).value;
      var n := WordSpan(s);
      0 < n <= |s| && IsTextOf(t, s[..n]) && EndsAt(t, s, n) && rest == s[n..]
  {
    WordShape(s);
    WordSpanMeans(s);
    hide FirstToken, WordSpan, IsWordChar, IsWordStart, KeywordFor, Lower, KeywordText, EndsAt;
    var n := WordSpan(s);
    WordSlice(s, n);
    KeywordForExactly(s[..n]);
    WordEnds(FirstToken(s).value.0, s, n);
  }

  lemma WordSlice(s: string, n: nat)
    requires n <= |s| && s != [] && IsWordStart(s[0])
    requires (forall i :: 0 <= i < n ==> IsWordChar(s[i])) && (n == |s| || !IsWordChar(s[n]))
    ensures n > 0 && Word(s[..n])
  {
  }

  lemma WordEnds(t: Tok, s: string, n: nat)
    requires (t.Kw? || t.Id?) && n <= |s| && (n == |s| || !IsWordChar(s[n]))
    ensures EndsAt(t, s, n)
  {
  }

  // Keywords are words in whatever case.
  lemma KeywordForExactly(w: string)
    ensures forall k :: KeywordFor(w) == Some(k) <==> Lower(w) == KeywordText(k)
  {
    hide Lower, KeywordText;
    forall k
      ensures KeywordFor(w) == Some(k) <==> Lower(w) == KeywordText(k)
    {
      KeywordsListed(k);
      SpelledAlike(Lower(w), KEYWORDS, k);
    }
  }

  lemma {:induction false} SpelledAlike(lower: string, ks: seq<Keyword>, k: Keyword)
    ensures FindKeyword(lower, ks) == Some(k) ==> lower == KeywordText(k)
    ensures k in ks && lower == KeywordText(k) ==> FindKeyword(lower, ks) == Some(k)
  {
    hide KeywordText;
    if ks != [] {
      KeywordsDiffer(k, ks[0]);
      SpelledAlike(lower, ks[1..], k);
    }
  }

  // ----- the whole text

  // The tokenizer returns exactly the tokens the text is laid out as, and fails where there are none.
  lemma {:induction false} LayoutIsRead(s: string, ts: seq<Tok>)
    requires IsLayout(s, ts)
    ensures Lex(s) == Some(ts + [Eof])
    decreases |s|
  {
    hide FirstToken, IsTextOf, EndsAt, IsSpace;
    if s != [] && IsSpace(s[0]) {
      LayoutIsRead(s[1..], ts);
    } else if s != [] {
      var n :| 0 < n <= |s| && BeginsWith(s, n, ts);
      FrontReads(ts[0], s, n);
      LayoutIsRead(s[n..], ts[1..]);
      assert Lex(s) == Prepend([ts[0]], Lex(s[n..]));
      assert [ts[0]] + (ts[1..] + [Eof]) == ts + [Eof];
    } else {
      assert [] + [Eof] == [Eof];
    }
  }

  lemma {:induction false} ReadIsLayout(s: string) returns (ts: seq<Tok>)
    ensures Lex(s).Some? ==> Lex(s) == Some(ts + [Eof]) && IsLayout(s, ts)
    decreases |s|
  {
    hide FirstToken, IsTextOf, EndsAt, IsSpace;
    ts := [];
    if s != [] && IsSpace(s[0]) {
      ts := ReadIsLayout(s[1..]);
    } else if s != [] && FirstToken(s).Some? {
      var n := FrontIsToken(s);
      var tail := ReadIsLayout(s[n..]);
      var t := FirstToken(s).value.0;
      ts := [t] + tail;
      assert Lex(s) == Prepend([t], Lex(s[n..]));
      if Lex(s).Some? {
        assert ts[1..] == tail && [t] + (tail + [Eof]) == ts + [Eof];
        assert BeginsWith(s, n, ts);
      }
    } else {
      assert [] + [Eof] == [Eof];
    }
  }

  lemma LexExactly(s: string, ts: seq<Tok>)
    ensures Lex(s) == Some(ts + [Eof]) <==> IsLayout(s, ts)
  {
    hide Lex, IsLayout;
    if IsLayout(s, ts) {
      LayoutIsRead(s, ts);
    }
    if Lex(s) == Some(ts + [Eof]) {
      var us := ReadIsLayout(s);
      assert (ts + [Eof])[..|ts|] == ts && (us + [Eof])[..|us|] == us;
    }
  }

  lemma {:induction false} LayoutHasNoEnd(s: string, ts: seq<Tok>)
    requires IsLayout(s, ts)
    ensures Eof !in ts
    decreases |s|
  {
    hide EndsAt, IsSpace;
    if s != [] && IsSpace(s[0]) {
      LayoutHasNoEnd(s[1..], ts);
    } else if s != [] {
      var n :| 0 < n <= |s| && BeginsWith(s, n, ts);
      LayoutHasNoEnd(s[n..], ts[1..]);
      assert ts == [ts[0]] + ts[1..];
    }
  }

  // Whatever text the parser accepts is laid out as tokens that spell the tree it gives.
  lemma AcceptedTextIsSpelled(text: string) returns (ts: seq<Tok>)
    requires ParseText(text).Ok?
    ensures IsLayout(Strip(text), ts) && Spells(1, ts, ParseText(text).value)
  {
    hide Lex, ParseTokens, Strip, IsLayout, Spells;
    ts := ReadIsLayout(Strip(text));
    LayoutHasNoEnd(Strip(text), ts);
    AcceptedIsSpelled(ts);
  }
}
