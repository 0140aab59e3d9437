/** The tokenizer of the expression language. */
module ExprLexer {
  import opened Wrappers
  import opened Text

  datatype Keyword =
    | KAnd | KOr | KNot | KIn | KContains | KTrue | KFalse | KNull | KNone | KIf | KThen | KElse | KAll | KAny

  datatype OpSymbol =
    | EqEq | NotEq | LessEq | GreaterEq | SlashSlash
    | Plus | Minus | Star | Slash | Percent | Less | Greater | Assign | Bang

  datatype Tok =
    | OpTok(op: OpSymbol)
    | Punct(c: char)
    | Str(s: string)
    | Num(raw: string)
    | Kw(k: Keyword)
    | Id(name: string)
    | Eof

  const KEYWORDS: seq<Keyword> :=
    [KAnd, KOr, KNot, KIn, KContains, KTrue, KFalse, KNull, KNone, KIf, KThen, KElse, KAll, KAny]

  function KeywordText(k: Keyword): string {
    match k
    case KAnd => "and"
    case KOr => "or"
    case KNot => "not"
    case KIn => "in"
    case KContains => "contains"
    case KTrue => "true"
    case KFalse => "false"
    case KNull => "null"
    case KNone => "none"
    case KIf => "if"
    case KThen => "then"
    case KElse => "else"
    case KAll => "all"
    case KAny => "any"
  }

  function OpText(op: OpSymbol): string {
    match op
    case EqEq => "=="
    case NotEq => "!="
    case LessEq => "<="
    case GreaterEq => ">="
    case SlashSlash => "//"
    case Plus => "+"
    case Minus => "-"
    case Star => "*"
    case Slash => "/"
    case Percent => "%"
    case Less => "<"
    case Greater => ">"
    case Assign => "="
    case Bang => "!"
  }

  // The keyword a word spells in lower case, if any.
  function KeywordFor(word: string): Option<Keyword> {
    FindKeyword(Lower(word), KEYWORDS)
  }

  function FindKeyword(lower: string, ks: seq<Keyword>): Option<Keyword> {
    if ks == [] then None
    else if lower == KeywordText(ks[0]) then Some(ks[0])
    else FindKeyword(lower, ks[1..])
  }

  function DoubleOp(s: string): Option<OpSymbol>
    requires s != []
  {
    if |s| == 1 then None
    else if s[0] == '=' && s[1] == '=' then Some(EqEq)
    else if s[0] == '!' && s[1] == '=' then Some(NotEq)
    else if s[0] == '<' && s[1] == '=' then Some(LessEq)
    else if s[0] == '>' && s[1] == '=' then Some(GreaterEq)
    else if s[0] == '/' && s[1] == '/' then Some(SlashSlash)
    else None
  }

  lemma DoubleOpIsLong(s: string)
    requires s != [] && DoubleOp(s).Some?
    ensures |s| >= 2
  {
  }

  function SingleOp(c: char): Option<OpSymbol> {
    if c == '+' then Some(Plus)
    else if c == '-' then Some(Minus)
    else if c == '*' then Some(Star)
    else if c == '/' then Some(Slash)
    else if c == '%' then Some(Percent)
    else if c == '<' then Some(Less)
    else if c == '>' then Some(Greater)
    else if c == '=' then Some(Assign)
    else if c == '!' then Some(Bang)
    else None
  }

  const PUNCTUATION: string := "(),[]{}:."

  predicate IsWordStart(c: char) { IsAlpha(c) || c == '_' }

  predicate IsWordChar(c: char) { IsAlnum(c) || c == '_' }

  predicate IsNumberChar(c: char) { IsDigit(c) || c == '.' }

  // Length of the longest prefix of word characters, or of digits and dots.
  function WordSpan(s: string): (n: nat)
    ensures n <= |s|
  {
    if s != [] && IsWordChar(s[0]) then 1 + WordSpan(s[1..]) else 0
  }

  function NumberSpan(s: string): (n: nat)
    ensures n <= |s|
  {
    if s != [] && IsNumberChar(s[0]) then 1 + NumberSpan(s[1..]) else 0
  }

  // The body of a string literal after its opening quote: the text it denotes, and what follows it.
  function StringBody(quote: char, s: string): (r: Option<(string, string)>)
    ensures r.Some? ==> |r.value.1| < |s|
    decreases |s|
  {
    if s == [] then None
    else if s[0] == '\\' && |s| > 1 then
      Buffered([s[1]], StringBody(quote, s[2..]))
    else if s[0] == quote then Some(("", s[1..]))
    else Buffered([s[0]], StringBody(quote, s[1..]))
  }

  function Buffered(buf: string, body: Option<(string, string)>): Option<(string, string)> {
    if body.None? then None else Some((buf + body.value.0, body.value.1))
  }

  lemma BufferedInTurn(buf: string, c: char, body: Option<(string, string)>)
    ensures Buffered(buf, Buffered([c], body)) == Buffered(buf + [c], body)
    ensures Buffered("", body) == body
  {
    if body.Some? {
      assert buf + ([c] + body.value.0) == buf + [c] + body.value.0;
      assert "" + body.value.0 == body.value.0;
    }
  }

  // The first token of a text that starts with no space, and what follows it.
  function FirstToken(s: string): (r: Option<(Tok, string)>)
    requires s != []
    ensures r.Some? ==> |r.value.1| < |s|
  {
    var ch := s[0];
    if DoubleOp(s).Some? then Some((OpTok(DoubleOp(s).value), s[2..]))
    else if SingleOp(ch).Some? then Some((OpTok(SingleOp(ch).value), s[1..]))
    else if ch in PUNCTUATION then Some((Punct(ch), s[1..]))
    else if ch == '\'' || ch == '"' then
      var body := StringBody(ch, s[1..]);
      if body.None? then None else Some((Str(body.value.0), body.value.1))
    else if IsDigit(ch) then
      Some((Num(s[..NumberSpan(s)]), s[NumberSpan(s)..]))
    else if IsWordStart(ch) then
      var word := s[..WordSpan(s)];
      Some((if KeywordFor(word).Some? then Kw(KeywordFor(word).value) else Id(word), s[WordSpan(s)..]))
    else None
  }

  // All tokens, closed by Eof; None where the source raises ExpressionError.
  function Lex(s: string): (r: Option<seq<Tok>>)
    ensures r.Some? ==> r.value != [] && r.value[|r.value| - 1] == Eof
    decreases |s|
  {
    if s == [] then Some([Eof])
    else if IsSpace(s[0]) then Lex(s[1..])
    else
      var first := FirstToken(s);
      if first.None? then None
      else
        Prepend([first.value.0], Lex(first.value.1))
  }

  function Prepend(tokens: seq<Tok>, rest: Option<seq<Tok>>): (r: Option<seq<Tok>>)
    ensures rest.Some? && rest.value != [] ==> r.Some? && r.value != [] && r.value[|r.value| - 1] == rest.value[|rest.value| - 1]
  {
    if rest.None? then None else Some(tokens + rest.value)
  }

  lemma PrependInTurn(tokens: seq<Tok>, tok: Tok, rest: Option<seq<Tok>>)
    ensures Prepend(tokens, Prepend([tok], rest)) == Prepend(tokens + [tok], rest)
    ensures Prepend([], rest) == rest
  {
    if rest.Some? {
      assert tokens + ([tok] + rest.value) == tokens + [tok] + rest.value;
      assert [] + rest.value == rest.value;
    }
  }

  // The index loop of the source.
  method Tokenize(text: string) returns (r: Option<seq<Tok>>)
    ensures r == Lex(text)
  {
    hide FirstToken, StringBody, KeywordFor;
    var tokens: seq<Tok> := [];
    var i := 0;
    var n := |text|;
    assert text[0..] == text;
    PrependInTurn([], Eof, Lex(text));
    while i < n
      invariant 0 <= i <= n
      invariant Lex(text) == Prepend(tokens, Lex(text[i..]))
    {
      var s := text[i..];
      var ch := text[i];
      assert s[1..] == text[i + 1..];
      if IsSpace(ch) {
        i := i + 1;
        continue;
      }
      var first := ReadToken(text, i);
      if first.None? {
        return None;
      }
      var (tok, j) := first.value;
      PrependInTurn(tokens, tok, Lex(text[j..]));
      tokens := tokens + [tok];
      i := j;
    }
    r := Some(tokens + [Eof]);
  }

  method ReadToken(text: string, i: nat) returns (r: Option<(Tok, nat)>)
    requires i < |text|
    ensures r.Some? ==> i < r.value.1 <= |text|
    ensures r.None? <==> FirstToken(text[i..]).None?
    ensures r.Some? ==> FirstToken(text[i..]) == Some((r.value.0, text[r.value.1..]))
  {
    hide StringBody, KeywordFor, SingleOp, DoubleOp, NumberSpan, WordSpan;
    var s := text[i..];
    var n := |text|;
    var ch := text[i];
    if DoubleOp(s).Some? {
      DoubleOpIsLong(s);
      return Some((OpTok(DoubleOp(s).value), i + 2));
    }
    if SingleOp(ch).Some? {
      return Some((OpTok(SingleOp(ch).value), i + 1));
    }
    if ch in PUNCTUATION {
      return Some((Punct(ch), i + 1));
    }
    if ch == '\'' || ch == '"' {
      r := ReadString(text, i + 1, ch);
      assert text[i + 1..] == s[1..];
      return;
    }
    if IsDigit(ch) {
      var j := NumberEnd(text, i);
      return Some((Num(text[i..j]), j));
    }
    if IsWordStart(ch) {
      var j := WordEnd(text, i);
      var word := text[i..j];
      return Some((if KeywordFor(word).Some? then Kw(KeywordFor(word).value) else Id(word), j));
    }
    r := None;
  }

  method NumberEnd(text: string, i: nat) returns (j: nat)
    requires i < |text| && IsDigit(text[i])
    ensures i < j <= |text| && j - i == NumberSpan(text[i..])
    ensures text[i..][..j - i] == text[i..j] && text[i..][j - i..] == text[j..]
  {
    j := i;
    while j < |text| && IsNumberChar(text[j])
      invariant i <= j <= |text| && (j == i ==> IsNumberChar(text[j]))
      invariant NumberSpan(text[i..]) == (j - i) + NumberSpan(text[j..])
    {
      assert text[j..][1..] == text[j + 1..];
      j := j + 1;
    }
  }

  method WordEnd(text: string, i: nat) returns (j: nat)
    requires i < |text| && IsWordStart(text[i])
    ensures i < j <= |text| && j - i == WordSpan(text[i..])
    ensures text[i..][..j - i] == text[i..j] && text[i..][j - i..] == text[j..]
  {
    j := i + 1;
    assert text[i..][1..] == text[i + 1..];
    while j < |text| && IsWordChar(text[j])
      invariant i < j <= |text|
      invariant WordSpan(text[i..]) == (j - i) + WordSpan(text[j..])
    {
      assert text[j..][1..] == text[j + 1..];
      j := j + 1;
    }
  }

  method ReadString(text: string, i: nat, quote: char) returns (r: Option<(Tok, nat)>)
    requires i <= |text|
    ensures r.Some? ==> i < r.value.1 <= |text|
    ensures r.None? <==> StringBody(quote, text[i..]).None?
    ensures r.Some? ==> r.value.0.Str? && StringBody(quote, text[i..]) == Some((r.value.0.s, text[r.value.1..]))
  {
    var n := |text|;
    var j := i;
    var buf := "";
    BufferedInTurn("", quote, StringBody(quote, text[i..]));
    while j < n
      invariant i <= j <= n
      invariant StringBody(quote, text[i..]) == Buffered(buf, StringBody(quote, text[j..]))
    {
      var c := text[j];
      assert text[j..][1..] == text[j + 1..];
      if c == '\\' && j + 1 < n {
        assert text[j..][2..] == text[j + 2..];
        BufferedInTurn(buf, text[j + 1], StringBody(quote, text[j + 2..]));
        buf := buf + [text[j + 1]];
        j := j + 2;
        continue;
      }
      if c == quote {
        assert buf + "" == buf;
        return Some((Str(buf), j + 1));
      }
      BufferedInTurn(buf, c, StringBody(quote, text[j + 1..]));
      buf := buf + [c];
      j := j + 1;
    }
    r := None;
  }
}
