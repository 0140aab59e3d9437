/** The authorization language: splitting at top level, and the or / and / atom parser. */
module AuthSyntax {
  import opened Wrappers
  import opened Text

  datatype TemporalOp = Before | After | Expires

  datatype AtomKind =
    | Role | Capability | Policy | Scope | Tenant | Grant | Delegation | Authority
    | Temporal(op: TemporalOp)

  datatype AuthExpr =
    | Atom(kind: AtomKind, value: string)
    | And(children: seq<AuthExpr>)
    | Or(children: seq<AuthExpr>)

  const OR_SEP := " or "
  const AND_SEP := " and "

  // ----- splitting

  // Is the separator next? Without spaces of its own it must stand between word boundaries.
  predicate SepAt(s: string, sep: string, prev: Option<char>)
    requires sep != []
  {
    && |sep| <= |s|
    && Lower(s[..|sep|]) == Lower(sep)
    && (IsSpace(sep[0]) || prev.None? || !IsAlnum(prev.value))
    && (IsSpace(sep[|sep| - 1]) || |s| == |sep| || !IsAlnum(s[|sep|]))
  }

  // The stripped pieces of buf + s, cut at separators outside brackets.
  function Pieces(s: string, sep: string, prev: Option<char>, depth: int, buf: string): (ps: seq<string>)
    requires sep != []
    ensures ps != []
    ensures forall p :: p in ps ==> |p| <= |buf| + |s| && (|ps| > 1 ==> |p| < |buf| + |s|)
    decreases |s|
  {
    if s == [] then [Strip(buf)]
    else if s[0] == '(' then Pieces(s[1..], sep, Some(s[0]), depth + 1, buf + [s[0]])
    else if s[0] == ')' then Pieces(s[1..], sep, Some(s[0]), depth - 1, buf + [s[0]])
    else if depth == 0 && SepAt(s, sep, prev) then
      [Strip(buf)] + Pieces(s[|sep|..], sep, Some(s[|sep| - 1]), depth, [])
    else Pieces(s[1..], sep, Some(s[0]), depth, buf + [s[0]])
  }

  function NonEmpty(ps: seq<string>): (r: seq<string>)
    ensures forall p :: p in r <==> p in ps && p != []
  {
    if ps == [] then []
    else if ps[0] == [] then NonEmpty(ps[1..])
    else [ps[0]] + NonEmpty(ps[1..])
  }

  // None when the separator does not occur at top level.
  function SplitTop(text: string, sep: string): (r: Option<seq<string>>)
    requires sep != []
    ensures r.Some? ==> forall p :: p in r.value ==> |p| < |text|
  {
    var ps := Pieces(text, sep, None, 0, []);
    if |ps| > 1 then Some(NonEmpty(ps)) else None
  }

  // Reading one more character, or one separator, of the text.
  lemma PiecesStep(text: string, sep: string, i: nat, depth: int, buf: string)
    requires sep != [] && i < |text|
    ensures var ch, here := text[i], Pieces(text[i..], sep, Previous(text, i), depth, buf);
      if ch == '(' then here == Pieces(text[i + 1..], sep, Previous(text, i + 1), depth + 1, buf + [ch])
      else if ch == ')' then here == Pieces(text[i + 1..], sep, Previous(text, i + 1), depth - 1, buf + [ch])
      else if depth == 0 && SepAt(text[i..], sep, Previous(text, i)) then
        i + |sep| <= |text|
        && here == [Strip(buf)] + Pieces(text[i + |sep|..], sep, Previous(text, i + |sep|), depth, [])
      else here == Pieces(text[i + 1..], sep, Previous(text, i + 1), depth, buf + [ch])
  {
    var s := text[i..];
    assert s[1..] == text[i + 1..];
    if SepAt(s, sep, Previous(text, i)) {
      assert s[|sep|..] == text[i + |sep|..] && s[|sep| - 1] == text[i + |sep| - 1];
    }
    hide Strip, SepAt;
  }

  // The index loop of the source.
  method SplitTopLoop(text: string, sep: string) returns (r: Option<seq<string>>)
    requires sep != []
    ensures r == SplitTop(text, sep)
  {
    hide Pieces, SepAt, Strip;
    var parts: seq<string> := [];
    var depth := 0;
    var buf: string := [];
    var i := 0;
    assert text[0..] == text;
    while i < |text|
      invariant 0 <= i <= |text|
      invariant Pieces(text, sep, None, 0, []) == parts + Pieces(text[i..], sep, Previous(text, i), depth, buf)
    {
      PiecesStep(text, sep, i, depth, buf);
      var ch := text[i];
      if ch == '(' {
        depth := depth + 1;
        buf := buf + [ch];
        i := i + 1;
        continue;
      }
      if ch == ')' {
        depth := depth - 1;
        buf := buf + [ch];
        i := i + 1;
        continue;
      }
      if depth == 0 && SepAt(text[i..], sep, Previous(text, i)) {
        parts := parts + [Strip(buf)];
        buf := [];
        i := i + |sep|;
        continue;
      }
      buf := buf + [ch];
      i := i + 1;
    }
    LastPiece(text[i..], sep, Previous(text, i), depth, buf);
    parts := parts + [Strip(buf)];
    r := if |parts| > 1 then Some(NonEmpty(parts)) else None;
  }

  lemma LastPiece(s: string, sep: string, prev: Option<char>, depth: int, buf: string)
    requires s == [] && sep != []
    ensures Pieces(s, sep, prev, depth, buf) == [Strip(buf)]
  {
  }

  function Previous(text: string, i: nat): Option<char>
    requires i <= |text|
  {
    if i == 0 then None else Some(text[i - 1])
  }

  // ----- atoms

  function ColonAt(s: string): (n: nat)
    ensures n <= |s| && (n < |s| ==> s[n] == ':')
  {
    if s == [] || s[0] == ':' then 0 else 1 + ColonAt(s[1..])
  }

  function TemporalOpFor(word: string): Option<TemporalOp> {
    if word == "before" then Some(Before)
    else if word == "after" then Some(After)
    else if word == "expires" then Some(Expires)
    else None
  }

  predicate StartsWith(s: string, prefix: string) { prefix <= s }

  const PREFIXES: seq<(string, AtomKind)> := [
    ("role:", Role), ("capability:", Capability), ("policy:", Policy), ("scope:", Scope), ("tenant:", Tenant),
    ("grant:", Grant), ("delegation:", Delegation), ("delegates:", Delegation), ("authz:", Role),
    ("authority:", Authority)]

  function ByPrefix(text: string, prefixes: seq<(string, AtomKind)>): Option<AuthExpr> {
    if prefixes == [] then None
    else if StartsWith(Lower(text), prefixes[0].0) then
      Some(Atom(prefixes[0].1, Strip(text[|prefixes[0].0|..])))
    else ByPrefix(text, prefixes[1..])
  }

  // A bare identifier: letters and digits, once dashes and underscores are taken out.
  predicate IsBareRole(text: string) {
    (exists i :: 0 <= i < |text| && IsAlnum(text[i]))
    && forall i :: 0 <= i < |text| ==> IsAlnum(text[i]) || text[i] == '_' || text[i] == '-'
  }

  // After `temporal:`, an operator, a colon and a bound.
  function TemporalAtom(rest: string): Option<AuthExpr> {
    var colon := ColonAt(rest);
    if colon == |rest| then None
    else
      var op := TemporalOpFor(Lower(Strip(rest[..colon])));
      if op.None? then None else Some(Atom(Temporal(op.value), Strip(rest[colon + 1..])))
  }

  function PlainAtom(text: string): Option<AuthExpr> {
    if StartsWith(Lower(text), "temporal:") then TemporalAtom(text[9..])
    else if ByPrefix(text, PREFIXES).Some? then ByPrefix(text, PREFIXES)
    else if IsBareRole(text) then Some(Atom(Role, text))
    else None
  }

  // ----- the parser; None where the source raises ValueError

  function ParseOr(text: string): Option<AuthExpr>
    decreases |text|, 3, 0
  {
    var parts := SplitTop(text, OR_SEP);
    if parts.Some? && |parts.value| > 1 then
      var cs := ParseAnds(parts.value, |text|);
      if cs.None? then None else Some(Or(cs.value))
    else ParseAnd(text)
  }

  function ParseAnds(parts: seq<string>, limit: nat): (r: Option<seq<AuthExpr>>)
    requires forall p :: p in parts ==> |p| < limit
    ensures r.Some? ==> |r.value| == |parts|
    decreases limit, 0, |parts|
  {
    if parts == [] then Some([])
    else
      var c, cs := ParseAnd(parts[0]), ParseAnds(parts[1..], limit);
      if c.None? || cs.None? then None else Some([c.value] + cs.value)
  }

  function ParseAnd(text: string): Option<AuthExpr>
    decreases |text|, 2, 0
  {
    var parts := SplitTop(text, AND_SEP);
    if parts.Some? && |parts.value| > 1 then
      var cs := ParseAtoms(parts.value, |text|);
      if cs.None? then None else Some(And(cs.value))
    else ParseAtom(text)
  }

  function ParseAtoms(parts: seq<string>, limit: nat): (r: Option<seq<AuthExpr>>)
    requires forall p :: p in parts ==> |p| < limit
    ensures r.Some? ==> |r.value| == |parts|
    decreases limit, 0, |parts|
  {
    if parts == [] then Some([])
    else
      var c, cs := ParseAtom(parts[0]), ParseAtoms(parts[1..], limit);
      if c.None? || cs.None? then None else Some([c.value] + cs.value)
  }

  predicate Bracketed(t: string) { |t| >= 2 && t[0] == '(' && t[|t| - 1] == ')' }

  function ParseAtom(text: string): Option<AuthExpr>
    decreases |text|, 1, 0
  {
    var t := Strip(text);
    if Bracketed(t) then ParseOr(Strip(t[1..|t| - 1])) else PlainAtom(t)
  }

  datatype CompileError = EmptyExpression | Unsupported

  function Compile(raw: string): Result<AuthExpr, CompileError> {
    var text := Strip(raw);
    if text == [] then Err(EmptyExpression)
    else
      var tree := ParseOr(text);
      if tree.None? then Err(Unsupported) else Ok(tree.value)
  }
}
