/** A printer for authorization trees, and the proof that compilation inverts it. */
module AuthRoundTrip {
  import opened Wrappers
  import opened Text
  import opened AuthSyntax

  function KindText(kind: AtomKind): string {
    match kind
    case Role => "role:"
    case Capability => "capability:"
    case Policy => "policy:"
    case Scope => "scope:"
    case Tenant => "tenant:"
    case Grant => "grant:"
    case Delegation => "delegation:"
    case Authority => "authority:"
    case Temporal(Before) => "temporal:before:"
    case Temporal(After) => "temporal:after:"
    case Temporal(Expires) => "temporal:expires:"
  }

  // Combinators join at least two; atom values hold no space and no bracket.
  predicate Printable(e: AuthExpr) {
    match e
    case Atom(_, value) => Word(value)
    case And(children) => |children| >= 2 && forall c :: c in children ==> Printable(c)
    case Or(children) => |children| >= 2 && forall c :: c in children ==> Printable(c)
  }

  predicate Word(s: string) {
    forall i :: 0 <= i < |s| ==> !IsSpace(s[i]) && s[i] != '(' && s[i] != ')'
  }

  function PrintOr(e: AuthExpr): string
    decreases e, 2
  {
    if e.Or? then JoinOr(e.children) else PrintAnd(e)
  }

  function JoinOr(cs: seq<AuthExpr>): string
    decreases cs, 3
  {
    if cs == [] then ""
    else PrintAnd(cs[0]) + (if |cs| == 1 then "" else OR_SEP + JoinOr(cs[1..]))
  }

  function PrintAnd(e: AuthExpr): string
    decreases e, 1
  {
    if e.And? then JoinAnd(e.children) else PrintAtom(e)
  }

  function JoinAnd(cs: seq<AuthExpr>): string
    decreases cs, 3
  {
    if cs == [] then ""
    else PrintAtom(cs[0]) + (if |cs| == 1 then "" else AND_SEP + JoinAnd(cs[1..]))
  }

  function PrintAtom(e: AuthExpr): string
    decreases e, 0
  {
    match e
    case Atom(kind, value) => KindText(kind) + value
    case And(children) => "(" + JoinAnd(children) + ")"
    case Or(children) => "(" + JoinOr(children) + ")"
  }

  // ----- brackets in balance

  // Reading s from inside `depth` brackets never leaves them.
  predicate Stays(s: string, depth: int) {
    if s == [] then depth >= 0
    else depth >= 0 && Stays(s[1..], Deeper(s[0], depth))
  }

  function Deeper(c: char, depth: int): int {
    if c == '(' then depth + 1 else if c == ')' then depth - 1 else depth
  }

  function DepthAfter(s: string, depth: int): int {
    if s == [] then depth else DepthAfter(s[1..], Deeper(s[0], depth))
  }

  predicate Balanced(s: string) { Stays(s, 0) && DepthAfter(s, 0) == 0 }

  lemma {:induction false} StaysJoin(a: string, b: string, depth: int)
    requires Stays(a, depth)
    ensures DepthAfter(a + b, depth) == DepthAfter(b, DepthAfter(a, depth))
    ensures Stays(b, DepthAfter(a, depth)) ==> Stays(a + b, depth)
  {
    if a == [] {
      assert a + b == b;
    } else {
      assert (a + b)[1..] == a[1..] + b;
      StaysJoin(a[1..], b, Deeper(a[0], depth));
    }
  }

  lemma {:induction false} StaysDeeper(s: string, depth: int)
    requires Stays(s, depth)
    ensures Stays(s, depth + 1) && DepthAfter(s, depth + 1) == DepthAfter(s, depth) + 1
  {
    if s != [] {
      StaysDeeper(s[1..], Deeper(s[0], depth));
    }
  }

  lemma BalancedJoin(a: string, b: string)
    requires Balanced(a) && Balanced(b)
    ensures Balanced(a + b)
  {
    StaysJoin(a, b, 0);
  }

  lemma BalancedGroup(s: string)
    requires Balanced(s)
    ensures Balanced("(" + s + ")")
  {
    StaysDeeper(s, 0);
    StaysJoin(s, ")", 1);
    assert ")"[1..] == "";
    assert "(" + s + ")" == "(" + (s + ")");
    assert ("(" + (s + ")"))[1..] == s + ")";
  }

  lemma {:induction false} WordBalanced(s: string)
    requires forall i :: 0 <= i < |s| ==> s[i] != '(' && s[i] != ')'
    ensures Balanced(s)
  {
    if s != [] {
      WordBalanced(s[1..]);
    }
  }

  // ----- what the printed texts look like

  // Balanced, with nothing to strip, and not starting like `or`.
  predicate Shapely(s: string) {
    s != [] && Tight(s) && Balanced(s) && LowerChar(s[0]) != 'o'
  }

  lemma KindShape(kind: AtomKind)
    ensures Word(KindText(kind)) && KindText(kind) != [] && LowerChar(KindText(kind)[0]) != 'o'
  {
    match kind
    case Temporal(op) => TemporalShape(op);
    case _ =>
  }

  lemma TemporalShape(op: TemporalOp)
    ensures Word(KindText(Temporal(op))) && LowerChar(KindText(Temporal(op))[0]) == 't'
  {
  }

  lemma AtomShape(kind: AtomKind, value: string)
    requires Word(value)
    ensures Shapely(KindText(kind) + value) && Word(KindText(kind) + value)
  {
    KindShape(kind);
    hide KindText, IsSpace;
    WordBalanced(KindText(kind) + value);
  }

  lemma GroupShape(s: string)
    requires Shapely(s)
    ensures Shapely("(" + s + ")") && Bracketed("(" + s + ")")
  {
    BalancedGroup(s);
    hide Balanced;
  }

  lemma SeparatedShape(a: string, sep: string, b: string)
    requires Shapely(a) && Shapely(b) && sep in [OR_SEP, AND_SEP]
    ensures Shapely(a + (sep + b))
  {
    WordBalanced(sep);
    BalancedJoin(sep, b);
    BalancedJoin(a, sep + b);
    hide Balanced;
  }

  lemma {:induction false} Shapes(e: AuthExpr)
    requires Printable(e)
    ensures Shapely(PrintOr(e)) && Shapely(PrintAnd(e)) && Shapely(PrintAtom(e))
    decreases e, 1
  {
    hide Shapely, Word;
    match e
    case Atom(kind, value) =>
      AtomShape(kind, value);
      assert PrintAtom(e) == KindText(kind) + value && PrintAnd(e) == PrintAtom(e) && PrintOr(e) == PrintAnd(e);
    case And(children) =>
      JoinShapes(children);
      GroupShape(JoinAnd(children));
    case Or(children) =>
      JoinShapes(children);
      GroupShape(JoinOr(children));
  }

  lemma {:induction false} JoinShapes(cs: seq<AuthExpr>)
    requires cs != [] && forall c :: c in cs ==> Printable(c)
    ensures Shapely(JoinOr(cs)) && Shapely(JoinAnd(cs))
    decreases cs, 0
  {
    hide Shapely, Printable, PrintAnd, PrintAtom;
    Shapes(cs[0]);
    if |cs| == 1 {
      assert PrintAnd(cs[0]) + "" == PrintAnd(cs[0]) && PrintAtom(cs[0]) + "" == PrintAtom(cs[0]);
    } else {
      JoinShapes(cs[1..]);
      SeparatedShape(PrintAnd(cs[0]), OR_SEP, JoinOr(cs[1..]));
      SeparatedShape(PrintAtom(cs[0]), AND_SEP, JoinAnd(cs[1..]));
    }
  }

  // ----- the splitter passes over what it must not cut

  // With a separator that brings its own spaces, the character before does not matter.
  lemma SepBringsSpaces(s: string, sep: string, p: Option<char>, q: Option<char>)
    requires sep in [OR_SEP, AND_SEP]
    ensures SepAt(s, sep, p) == SepAt(s, sep, q)
  {
    hide Lower;
  }

  lemma {:induction false} PreviousIsIdle(s: string, sep: string, p: Option<char>, q: Option<char>, depth: int, buf: string)
    requires sep in [OR_SEP, AND_SEP]
    ensures Pieces(s, sep, p, depth, buf) == Pieces(s, sep, q, depth, buf)
  {
    hide SepAt, Strip;
    SepBringsSpaces(s, sep, p, q);
  }

  function Cut(s: string, sep: string, depth: int, buf: string): seq<string>
    requires sep != []
  {
    Pieces(s, sep, None, depth, buf)
  }

  // One character that begins no separator.
  lemma CutOne(s: string, sep: string, depth: int, buf: string)
    requires sep in [OR_SEP, AND_SEP] && s != []
    requires s[0] in ['(', ')'] || depth != 0 || !SepAt(s, sep, None)
    ensures Cut(s, sep, depth, buf) == Cut(s[1..], sep, Deeper(s[0], depth), buf + [s[0]])
  {
    PreviousIsIdle(s[1..], sep, Some(s[0]), None, Deeper(s[0], depth), buf + [s[0]]);
    hide SepAt, Strip;
  }

  lemma NoSepWithoutSpace(s: string, sep: string)
    requires sep in [OR_SEP, AND_SEP] && s != [] && !IsSpace(s[0])
    ensures !SepAt(s, sep, None)
  {
    assert Lower(sep)[0] == ' ';
    assert LowerChar(s[0]) != ' ';
    if |s| >= |sep| {
      assert Lower(s[..|sep|])[0] == LowerChar(s[0]);
    }
  }

  lemma {:induction false} CutWord(w: string, rest: string, sep: string, buf: string)
    requires sep in [OR_SEP, AND_SEP] && Word(w)
    ensures Cut(w + rest, sep, 0, buf) == Cut(rest, sep, 0, buf + w)
    decreases |w|
  {
    hide Cut, IsSpace;
    var s := w + rest;
    if w == [] {
      assert s == rest && buf + w == buf;
    } else {
      assert s[1..] == w[1..] + rest;
      NoSepWithoutSpace(s, sep);
      CutOne(s, sep, 0, buf);
      CutWord(w[1..], rest, sep, buf + [w[0]]);
      assert buf + [w[0]] + w[1..] == buf + w;
    }
  }

  // Inside brackets nothing is cut.
  lemma {:induction false} CutInside(g: string, rest: string, sep: string, depth: int, buf: string)
    requires sep in [OR_SEP, AND_SEP] && Stays(g, depth) && depth >= 0
    ensures Cut(g + rest, sep, depth + 1, buf) == Cut(rest, sep, DepthAfter(g, depth) + 1, buf + g)
    decreases |g|
  {
    hide Cut;
    var s := g + rest;
    if g == [] {
      assert s == rest && buf + g == buf;
    } else {
      assert s[1..] == g[1..] + rest;
      CutOne(s, sep, depth + 1, buf);
      CutInside(g[1..], rest, sep, Deeper(g[0], depth), buf + [g[0]]);
      assert buf + [g[0]] + g[1..] == buf + g;
    }
  }

  lemma CutGroup(inner: string, rest: string, sep: string, buf: string)
    requires sep in [OR_SEP, AND_SEP] && Balanced(inner)
    ensures Cut("(" + inner + ")" + rest, sep, 0, buf) == Cut(rest, sep, 0, buf + ("(" + inner + ")"))
  {
    hide Cut, Stays, DepthAfter;
    var s := "(" + inner + ")" + rest;
    assert s[1..] == inner + (")" + rest) && (")" + rest)[1..] == rest;
    CutOne(s, sep, 0, buf);
    CutInside(inner, ")" + rest, sep, 0, buf + "(");
    CutOne(")" + rest, sep, 1, buf + "(" + inner);
    assert buf + "(" + inner + ")" == buf + ("(" + inner + ")");
  }

  lemma CutAtom(e: AuthExpr, rest: string, sep: string, buf: string)
    requires Printable(e) && sep in [OR_SEP, AND_SEP]
    ensures Cut(PrintAtom(e) + rest, sep, 0, buf) == Cut(rest, sep, 0, buf + PrintAtom(e))
  {
    hide Cut, Balanced, KindText, JoinAnd, JoinOr;
    match e
    case Atom(kind, value) =>
      AtomShape(kind, value);
      CutWord(KindText(kind) + value, rest, sep, buf);
    case And(children) =>
      JoinShapes(children);
      CutGroup(JoinAnd(children), rest, sep, buf);
    case Or(children) =>
      JoinShapes(children);
      CutGroup(JoinOr(children), rest, sep, buf);
  }

  // " and " is no place to cut at " or ".
  lemma AndText(rest: string, buf: string)
    requires rest != []
    ensures var s, spaced := AND_SEP + rest, " " + rest;
      |s| >= 2 && s[0] == ' ' && s[1] == 'a' && s[1..] == "and" + spaced && spaced[0] == ' ' && spaced[1] == rest[0] && spaced[1..] == rest
    ensures buf + [' '] + "and" + [' '] == buf + AND_SEP
    ensures Word("and") && LowerChar('a') != 'o'
  {
    var s, spaced := AND_SEP + rest, " " + rest;
    assert s == " " + ("and" + spaced);
  }

  lemma CutAnd(rest: string, buf: string)
    requires rest != [] && LowerChar(rest[0]) != 'o'
    ensures Cut(AND_SEP + rest, OR_SEP, 0, buf) == Cut(rest, OR_SEP, 0, buf + AND_SEP)
  {
    hide Cut, SepAt, Word, LowerChar;
    AndText(rest, buf);
    var s, spaced := AND_SEP + rest, " " + rest;
    NotOrAt(s, 'a');
    CutOne(s, OR_SEP, 0, buf);
    CutWord("and", spaced, OR_SEP, buf + [' ']);
    NotOrAt(spaced, rest[0]);
    CutOne(spaced, OR_SEP, 0, buf + [' '] + "and");
  }

  lemma NotOrAt(s: string, second: char)
    requires |s| >= 2 && s[1] == second && LowerChar(second) != 'o'
    ensures !SepAt(s, OR_SEP, None)
  {
    assert Lower(OR_SEP)[1] == 'o';
    if |s| >= 4 {
      assert Lower(s[..4])[1] == LowerChar(second);
    }
  }

  lemma Regroup(a: string, sep: string, b: string, rest: string, buf: string)
    ensures (a + (sep + b)) + rest == a + (sep + (b + rest))
    ensures buf + a + sep + b == buf + (a + (sep + b))
  {
  }

  lemma JoinAndSteps(cs: seq<AuthExpr>, rest: string, buf: string)
    requires |cs| > 1
    ensures var more := JoinAnd(cs[1..]);
      && JoinAnd(cs) + rest == PrintAtom(cs[0]) + (AND_SEP + (more + rest))
      && buf + PrintAtom(cs[0]) + AND_SEP + more == buf + JoinAnd(cs)
  {
    hide PrintAtom;
    Regroup(PrintAtom(cs[0]), AND_SEP, JoinAnd(cs[1..]), rest, buf);
  }

  lemma JoinAndHead(cs: seq<AuthExpr>, rest: string)
    requires cs != [] && forall c :: c in cs ==> Printable(c)
    ensures JoinAnd(cs) + rest != [] && LowerChar((JoinAnd(cs) + rest)[0]) != 'o'
  {
    JoinShapes(cs);
    hide JoinAnd, Printable, Balanced, LowerChar;
  }

  lemma {:induction false} CutJoinAnd(cs: seq<AuthExpr>, rest: string, buf: string)
    requires cs != [] && forall c :: c in cs ==> Printable(c)
    ensures Cut(JoinAnd(cs) + rest, OR_SEP, 0, buf) == Cut(rest, OR_SEP, 0, buf + JoinAnd(cs))
    decreases |cs|
  {
    hide Cut, PrintAtom, Printable, LowerChar;
    if |cs| == 1 {
      assert PrintAtom(cs[0]) + "" == PrintAtom(cs[0]);
      CutAtom(cs[0], rest, OR_SEP, buf);
    } else {
      hide JoinAnd;
      var more := JoinAnd(cs[1..]) + rest;
      JoinAndSteps(cs, rest, buf);
      CutAtom(cs[0], AND_SEP + more, OR_SEP, buf);
      JoinAndHead(cs[1..], rest);
      CutAnd(more, buf + PrintAtom(cs[0]));
      CutJoinAnd(cs[1..], rest, buf + PrintAtom(cs[0]) + AND_SEP);
    }
  }

  lemma CutPrintAnd(e: AuthExpr, rest: string, buf: string)
    requires Printable(e)
    ensures Cut(PrintAnd(e) + rest, OR_SEP, 0, buf) == Cut(rest, OR_SEP, 0, buf + PrintAnd(e))
  {
    if e.And? {
      CutJoinAnd(e.children, rest, buf);
    } else {
      CutAtom(e, rest, OR_SEP, buf);
    }
  }

  // At the separator itself.
  lemma CutSeparator(sep: string, rest: string, buf: string)
    requires sep in [OR_SEP, AND_SEP]
    ensures Cut(sep + rest, sep, 0, buf) == [Strip(buf)] + Cut(rest, sep, 0, [])
  {
    var s := sep + rest;
    assert s[..|sep|] == sep && s[|sep|..] == rest;
    assert SepAt(s, sep, None);
    PreviousIsIdle(rest, sep, Some(s[|sep| - 1]), None, 0, []);
    hide SepAt, Strip;
  }

  lemma CutEnd(sep: string, buf: string)
    requires sep != []
    ensures Cut("", sep, 0, buf) == [Strip(buf)]
  {
  }

  function PrintAnds(cs: seq<AuthExpr>): (ps: seq<string>)
    ensures |ps| == |cs| && forall i :: 0 <= i < |cs| ==> ps[i] == PrintAnd(cs[i])
  {
    if cs == [] then [] else [PrintAnd(cs[0])] + PrintAnds(cs[1..])
  }

  function PrintAtoms(cs: seq<AuthExpr>): (ps: seq<string>)
    ensures |ps| == |cs| && forall i :: 0 <= i < |cs| ==> ps[i] == PrintAtom(cs[i])
  {
    if cs == [] then [] else [PrintAtom(cs[0])] + PrintAtoms(cs[1..])
  }

  lemma {:induction false} CutJoinedOr(cs: seq<AuthExpr>)
    requires cs != [] && forall c :: c in cs ==> Printable(c)
    ensures Cut(JoinOr(cs), OR_SEP, 0, []) == PrintAnds(cs)
  {
    hide Cut, PrintAnd, Printable;
    var first := PrintAnd(cs[0]);
    Shapes(cs[0]);
    TightStrips(first);
    assert [] + first == first;
    if |cs| == 1 {
      CutPrintAnd(cs[0], "", []);
      CutEnd(OR_SEP, first);
      assert JoinOr(cs) == first + "";
      assert PrintAnds(cs[1..]) == [];
    } else {
      var rest := JoinOr(cs[1..]);
      CutPrintAnd(cs[0], OR_SEP + rest, []);
      CutSeparator(OR_SEP, rest, first);
      CutJoinedOr(cs[1..]);
    }
  }

  lemma {:induction false} CutJoinedAnd(cs: seq<AuthExpr>)
    requires cs != [] && forall c :: c in cs ==> Printable(c)
    ensures Cut(JoinAnd(cs), AND_SEP, 0, []) == PrintAtoms(cs)
  {
    hide Cut, PrintAtom, Printable;
    var first := PrintAtom(cs[0]);
    Shapes(cs[0]);
    TightStrips(first);
    assert [] + first == first;
    if |cs| == 1 {
      CutAtom(cs[0], "", AND_SEP, []);
      CutEnd(AND_SEP, first);
      assert JoinAnd(cs) == first + "";
      assert PrintAtoms(cs[1..]) == [];
    } else {
      var rest := JoinAnd(cs[1..]);
      CutAtom(cs[0], AND_SEP + rest, AND_SEP, []);
      CutSeparator(AND_SEP, rest, first);
      CutJoinedAnd(cs[1..]);
    }
  }

  lemma {:induction false} NonEmptyKeeps(ps: seq<string>)
    requires forall p :: p in ps ==> p != []
    ensures NonEmpty(ps) == ps
  {
    if ps != [] {
      assert ps[0] in ps && forall p :: p in ps[1..] ==> p in ps;
      NonEmptyKeeps(ps[1..]);
      assert ps == [ps[0]] + ps[1..];
    }
  }

  // ----- atoms

  lemma {:induction false} StripWord(s: string)
    requires Word(s)
    ensures Strip(s) == s
  {
    TightStrips(s);
  }

  function TemporalWord(op: TemporalOp): string {
    match op
    case Before => "before"
    case After => "after"
    case Expires => "expires"
  }

  lemma TemporalText(op: TemporalOp)
    ensures KindText(Temporal(op)) == "temporal:" + (TemporalWord(op) + ":")
    ensures TemporalOpFor(TemporalWord(op)) == Some(op)
    ensures Word(TemporalWord(op)) && IsLower(TemporalWord(op)) && ':' !in TemporalWord(op)
  {
  }

  lemma TemporalStarts(rest: string)
    ensures StartsWith(Lower("temporal:" + rest), "temporal:") && ("temporal:" + rest)[9..] == rest
  {
    LowerTemporal();
    LowerIsSame("temporal:");
    LowerJoin("temporal:", rest);
    hide Lower;
  }

  lemma ColonSplits(word: string, value: string)
    ensures (word + (":" + value))[..|word|] == word && (word + (":" + value))[|word| + 1..] == value
  {
  }

  lemma TemporalRest(op: TemporalOp, value: string)
    requires Word(value)
    ensures TemporalAtom(TemporalWord(op) + (":" + value)) == Some(Atom(Temporal(op), value))
  {
    StripWord(value);
    TemporalText(op);
    var word := TemporalWord(op);
    StripWord(word);
    LowerIsSame(word);
    ColonAfterWord(word, ":" + value);
    var rest := word + (":" + value);
    ColonSplits(word, value);
    hide *;
    TemporalAtomSteps(rest, op, |word|, value);
  }

  lemma TemporalAtomSteps(rest: string, op: TemporalOp, colon: nat, value: string)
    requires ColonAt(rest) == colon < |rest| && TemporalOpFor(Lower(Strip(rest[..colon]))) == Some(op)
    requires Strip(rest[colon + 1..]) == value
    ensures TemporalAtom(rest) == Some(Atom(Temporal(op), value))
  {
    hide Strip, Lower, ColonAt, TemporalOpFor;
  }

  lemma PlainTemporal(rest: string)
    ensures PlainAtom("temporal:" + rest) == TemporalAtom(rest)
  {
    TemporalStarts(rest);
    hide Lower, TemporalAtom, ByPrefix, IsBareRole, StartsWith;
  }

  lemma TemporalReads(op: TemporalOp, value: string)
    requires Word(value)
    ensures PlainAtom(KindText(Temporal(op)) + value) == Some(Atom(Temporal(op), value))
  {
    hide *;
    var rest := TemporalWord(op) + (":" + value);
    TemporalText(op);
    TemporalRest(op, value);
    PlainTemporal(rest);
    assert "temporal:" + (TemporalWord(op) + ":") + value == "temporal:" + rest;
  }

  lemma LowerTemporal()
    ensures IsLower("temporal:")
  {
  }

  // Where a kind stands in the prefix table.
  function PrefixIndex(kind: AtomKind): nat
    requires !kind.Temporal?
    ensures PrefixIndex(kind) < |PREFIXES|
    ensures PREFIXES[PrefixIndex(kind)] == (KindText(kind), kind)
  {
    match kind
    case Role => 0
    case Capability => 1
    case Policy => 2
    case Scope => 3
    case Tenant => 4
    case Grant => 5
    case Delegation => 6
    case Authority => 9
  }

  predicate ClashAt(a: string, b: string, d: nat) {
    d < |a| && d < |b| && a[d] != b[d]
  }

  lemma EarlierPrefixesClash(kind: AtomKind, j: nat)
    requires !kind.Temporal? && j < PrefixIndex(kind)
    ensures ClashAt(PREFIXES[j].0, KindText(kind), 0) || ClashAt(PREFIXES[j].0, KindText(kind), 4)
  {
    assert j in {0, 1, 2, 3, 4, 5, 6, 7, 8};
  }

  lemma TemporalClashes(kind: AtomKind)
    requires !kind.Temporal?
    ensures IsLower(KindText(kind))
    ensures ClashAt("temporal:", KindText(kind), 0) || ClashAt("temporal:", KindText(kind), 2)
  {
  }

  lemma ClashIsNoPrefix(p: string, text: string, rest: string, d: nat)
    requires ClashAt(p, text, d)
    ensures !StartsWith(text + rest, p)
  {
    assert (text + rest)[d] == text[d];
  }

  lemma {:induction false} PrefixFound(text: string, prefixes: seq<(string, AtomKind)>, i: nat)
    requires i < |prefixes| && StartsWith(Lower(text), prefixes[i].0)
    requires forall j :: 0 <= j < i ==> !StartsWith(Lower(text), prefixes[j].0)
    ensures ByPrefix(text, prefixes) == Some(Atom(prefixes[i].1, Strip(text[|prefixes[i].0|..])))
    decreases i
  {
    if i > 0 {
      PrefixFound(text, prefixes[1..], i - 1);
    }
  }

  lemma PrefixStands(p: string, rest: string)
    ensures StartsWith(p + rest, p)
  {
  }

  lemma PlainByPrefix(text: string, atom: AuthExpr)
    requires !StartsWith(Lower(text), "temporal:") && ByPrefix(text, PREFIXES) == Some(atom)
    ensures PlainAtom(text) == Some(atom)
  {
    hide Lower, ByPrefix, IsBareRole, StartsWith, TemporalAtom, PREFIXES;
  }

  lemma NoEarlierPrefix(kind: AtomKind, value: string, j: nat)
    requires !kind.Temporal? && j < PrefixIndex(kind)
    requires Lower(KindText(kind) + value) == KindText(kind) + Lower(value)
    ensures !StartsWith(Lower(KindText(kind) + value), PREFIXES[j].0)
  {
    hide StartsWith, Lower, KindText, PREFIXES;
    EarlierPrefixesClash(kind, j);
    var d := if ClashAt(PREFIXES[j].0, KindText(kind), 0) then 0 else 4;
    ClashIsNoPrefix(PREFIXES[j].0, KindText(kind), Lower(value), d);
  }

  lemma NotTemporal(kind: AtomKind, value: string)
    requires !kind.Temporal?
    requires Lower(KindText(kind) + value) == KindText(kind) + Lower(value)
    ensures !StartsWith(Lower(KindText(kind) + value), "temporal:")
  {
    hide StartsWith, Lower, KindText;
    TemporalClashes(kind);
    var d := if ClashAt("temporal:", KindText(kind), 0) then 0 else 2;
    ClashIsNoPrefix("temporal:", KindText(kind), Lower(value), d);
  }

  lemma KindTextStays(kind: AtomKind, value: string)
    requires !kind.Temporal?
    ensures Lower(KindText(kind) + value) == KindText(kind) + Lower(value)
  {
    hide Lower, KindText;
    TemporalClashes(kind);
    LowerJoin(KindText(kind), value);
    LowerIsSame(KindText(kind));
  }

  lemma PrefixReads(kind: AtomKind, value: string)
    requires Word(value) && !kind.Temporal?
    ensures PlainAtom(KindText(kind) + value) == Some(Atom(kind, value))
  {
    hide *;
    var text := KindText(kind) + value;
    StripWord(value);
    KindTextStays(kind, value);
    NotTemporal(kind, value);
    forall j | 0 <= j < PrefixIndex(kind)
      ensures !StartsWith(Lower(text), PREFIXES[j].0)
    {
      NoEarlierPrefix(kind, value, j);
    }
    PrefixStands(KindText(kind), Lower(value));
    PrefixFound(text, PREFIXES, PrefixIndex(kind));
    assert text[|KindText(kind)|..] == value;
    PlainByPrefix(text, Atom(kind, value));
  }

  lemma PlainAtomReads(kind: AtomKind, value: string)
    requires Word(value)
    ensures PlainAtom(KindText(kind) + value) == Some(Atom(kind, value))
  {
    hide *;
    if kind.Temporal? {
      TemporalReads(kind.op, value);
    } else {
      PrefixReads(kind, value);
    }
  }

  lemma {:induction false} ColonAfterWord(word: string, rest: string)
    requires forall i :: 0 <= i < |word| ==> word[i] != ':'
    requires rest != [] && rest[0] == ':'
    ensures ColonAt(word + rest) == |word|
  {
    if word == [] {
      assert word + rest == rest;
    } else {
      assert (word + rest)[1..] == word[1..] + rest;
      ColonAfterWord(word[1..], rest);
    }
  }

  // ----- the round trip

  // The parser inverts the printer at each level it can be entered.
  ghost predicate Returns(e: AuthExpr) {
    ParseOr(PrintOr(e)) == Some(e) && ParseAnd(PrintAnd(e)) == Some(e) && ParseAtom(PrintAtom(e)) == Some(e)
  }

  lemma NoSplit(text: string, sep: string)
    requires sep in [OR_SEP, AND_SEP] && Cut(text, sep, 0, []) == [text]
    ensures SplitTop(text, sep) == None
  {
  }

  lemma WholeAnd(e: AuthExpr)
    requires Printable(e)
    ensures SplitTop(PrintAnd(e), OR_SEP) == None
  {
    var text := PrintAnd(e);
    Shapes(e);
    TightStrips(text);
    CutPrintAnd(e, "", []);
    CutEnd(OR_SEP, text);
    assert text + "" == text && [] + text == text;
    hide Cut, PrintAnd, Shapely;
    NoSplit(text, OR_SEP);
  }

  lemma WholeAtom(e: AuthExpr)
    requires Printable(e)
    ensures SplitTop(PrintAtom(e), AND_SEP) == None
  {
    var text := PrintAtom(e);
    Shapes(e);
    TightStrips(text);
    CutAtom(e, "", AND_SEP, []);
    CutEnd(AND_SEP, text);
    assert text + "" == text && [] + text == text;
    hide Cut, PrintAtom, Shapely;
    NoSplit(text, AND_SEP);
  }

  lemma {:induction false} RoundTrips(e: AuthExpr)
    requires Printable(e)
    ensures Returns(e)
    decreases e, 1
  {
    Shapes(e);
    match e
    case Atom(kind, value) =>
      AtomReturns(kind, value);
      WholeAtom(e);
      WholeAnd(e);
    case And(children) =>
      AndReturns(children);
      WholeAnd(e);
      GroupReturns(e, JoinAnd(children));
    case Or(children) =>
      OrReturns(children);
      GroupReturns(e, JoinOr(children));
      WholeAtom(e);
  }

  lemma AtomReturns(kind: AtomKind, value: string)
    requires Word(value)
    ensures ParseAtom(PrintAtom(Atom(kind, value))) == Some(Atom(kind, value))
  {
    var text := KindText(kind) + value;
    AtomShape(kind, value);
    TightStrips(text);
    PlainAtomReads(kind, value);
    hide PlainAtom, KindText, Strip;
  }

  lemma GroupReturns(e: AuthExpr, inner: string)
    requires PrintAtom(e) == "(" + inner + ")" && Shapely(inner) && ParseOr(inner) == Some(e)
    ensures ParseAtom(PrintAtom(e)) == Some(e)
  {
    var text := "(" + inner + ")";
    GroupShape(inner);
    TightStrips(text);
    TightStrips(inner);
    assert text[1..|text| - 1] == inner;
    hide ParseOr, Strip, Shapely;
  }

  lemma ReturnsAll(e: AuthExpr)
    requires Returns(e)
    ensures ParseAnd(PrintAnd(e)) == Some(e) && ParseAtom(PrintAtom(e)) == Some(e)
  {
    hide ParseOr, ParseAnd, ParseAtom, PrintOr, PrintAnd, PrintAtom;
  }

  lemma AndSplits(cs: seq<AuthExpr>)
    requires |cs| >= 2 && forall c :: c in cs ==> Printable(c)
    ensures SplitTop(JoinAnd(cs), AND_SEP) == Some(PrintAtoms(cs))
  {
    var ps := PrintAtoms(cs);
    CutJoinedAnd(cs);
    forall p | p in ps
      ensures p != []
    {
      var i :| 0 <= i < |ps| && ps[i] == p;
      Shapes(cs[i]);
    }
    NonEmptyKeeps(ps);
    hide Pieces, PrintAtom, JoinAnd, NonEmpty, Printable;
  }

  lemma OrSplits(cs: seq<AuthExpr>)
    requires |cs| >= 2 && forall c :: c in cs ==> Printable(c)
    ensures SplitTop(JoinOr(cs), OR_SEP) == Some(PrintAnds(cs))
  {
    var ps := PrintAnds(cs);
    CutJoinedOr(cs);
    forall p | p in ps
      ensures p != []
    {
      var i :| 0 <= i < |ps| && ps[i] == p;
      Shapes(cs[i]);
    }
    NonEmptyKeeps(ps);
    hide Pieces, PrintAnd, JoinOr, NonEmpty, Printable;
  }

  lemma {:induction false} AndReturns(cs: seq<AuthExpr>)
    requires |cs| >= 2 && forall c :: c in cs ==> Printable(c)
    ensures ParseAnd(JoinAnd(cs)) == Some(And(cs))
    decreases cs, 1
  {
    hide SplitTop, ParseAtom, ParseAtoms, JoinAnd, PrintAtom, Printable, PrintAtoms;
    AndSplits(cs);
    AtomsReturn(cs, |JoinAnd(cs)|);
  }

  lemma {:induction false} OrReturns(cs: seq<AuthExpr>)
    requires |cs| >= 2 && forall c :: c in cs ==> Printable(c)
    ensures ParseOr(JoinOr(cs)) == Some(Or(cs))
    decreases cs, 1
  {
    hide SplitTop, ParseAnd, ParseAnds, JoinOr, PrintAnd, Printable, PrintAnds;
    OrSplits(cs);
    AndsReturn(cs, |JoinOr(cs)|);
  }

  lemma AtomsStep(cs: seq<AuthExpr>, limit: nat)
    requires cs != [] && forall p :: p in PrintAtoms(cs) ==> |p| < limit
    requires ParseAtom(PrintAtom(cs[0])) == Some(cs[0])
    ensures forall p :: p in PrintAtoms(cs[1..]) ==> p in PrintAtoms(cs)
    ensures ParseAtoms(PrintAtoms(cs[1..]), limit) == Some(cs[1..]) ==> ParseAtoms(PrintAtoms(cs), limit) == Some(cs)
  {
    hide ParseAtom, ParseAnd, PrintAtom, PrintAnd;
    assert PrintAtoms(cs)[1..] == PrintAtoms(cs[1..]);
    assert cs == [cs[0]] + cs[1..];
  }

  lemma AtomsEmpty(limit: nat)
    ensures ParseAtoms(PrintAtoms([]), limit) == Some([])
  {
  }

  lemma {:induction false} AtomsReturn(cs: seq<AuthExpr>, limit: nat)
    requires forall c :: c in cs ==> Printable(c)
    requires forall p :: p in PrintAtoms(cs) ==> |p| < limit
    ensures ParseAtoms(PrintAtoms(cs), limit) == Some(cs)
    decreases cs, 0
  {
    hide *;
    if cs == [] {
      AtomsEmpty(limit);
    } else {
      RoundTrips(cs[0]);
      ReturnsAll(cs[0]);
      AtomsStep(cs, limit);
      AtomsReturn(cs[1..], limit);
    }
  }

  lemma AndsStep(cs: seq<AuthExpr>, limit: nat)
    requires cs != [] && forall p :: p in PrintAnds(cs) ==> |p| < limit
    requires ParseAnd(PrintAnd(cs[0])) == Some(cs[0])
    ensures forall p :: p in PrintAnds(cs[1..]) ==> p in PrintAnds(cs)
    ensures ParseAnds(PrintAnds(cs[1..]), limit) == Some(cs[1..]) ==> ParseAnds(PrintAnds(cs), limit) == Some(cs)
  {
    hide ParseAtom, ParseAnd, PrintAtom, PrintAnd;
    assert PrintAnds(cs)[1..] == PrintAnds(cs[1..]);
    assert cs == [cs[0]] + cs[1..];
  }

  lemma AndsEmpty(limit: nat)
    ensures ParseAnds(PrintAnds([]), limit) == Some([])
  {
  }

  lemma {:induction false} AndsReturn(cs: seq<AuthExpr>, limit: nat)
    requires forall c :: c in cs ==> Printable(c)
    requires forall p :: p in PrintAnds(cs) ==> |p| < limit
    ensures ParseAnds(PrintAnds(cs), limit) == Some(cs)
    decreases cs, 0
  {
    hide *;
    if cs == [] {
      AndsEmpty(limit);
    } else {
      RoundTrips(cs[0]);
      ReturnsAll(cs[0]);
      AndsStep(cs, limit);
      AndsReturn(cs[1..], limit);
    }
  }

  // Compilation inverts the printer.
  lemma CompileInvertsPrint(e: AuthExpr)
    requires Printable(e)
    ensures Compile(PrintOr(e)) == Ok(e)
  {
    hide ParseOr, ParseAnd, ParseAtom, PrintOr, PrintAnd, PrintAtom, Printable, Balanced, Strip;
    RoundTrips(e);
    Shapes(e);
    TightStrips(PrintOr(e));
  }
}
