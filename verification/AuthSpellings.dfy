/** The many spellings of an authorization string: letter case, alternative prefixes, and bare role names. */
module AuthSpellings {
  import opened Wrappers
  import opened Text
  import opened AuthSyntax
  import opened AuthRoundTrip

  // ----- prefixes

  // What may stand before a value of the kind, in lower case.
  predicate Names(p: string, kind: AtomKind) {
    match kind
    case Role => p == "role:" || p == "authz:"
    case Capability => p == "capability:"
    case Policy => p == "policy:"
    case Scope => p == "scope:"
    case Tenant => p == "tenant:"
    case Grant => p == "grant:"
    case Delegation => p == "delegation:" || p == "delegates:"
    case Authority => p == "authority:"
    case Temporal(_) => false
  }

  function IndexOf(p: string, kind: AtomKind): (i: nat)
    requires Names(p, kind)
    ensures i < |PREFIXES| && PREFIXES[i] == (p, kind)
  {
    match kind
    case Role => if p == "role:" then 0 else 8
    case Capability => 1
    case Policy => 2
    case Scope => 3
    case Tenant => 4
    case Grant => 5
    case Delegation => if p == "delegation:" then 6 else 7
    case Authority => 9
  }

  lemma Clashes(p: string, kind: AtomKind, j: nat)
    requires Names(p, kind) && j < IndexOf(p, kind)
    ensures ClashAt(PREFIXES[j].0, p, 0) || ClashAt(PREFIXES[j].0, p, 4) || ClashAt(PREFIXES[j].0, p, 7)
  {
    assert j in {0, 1, 2, 3, 4, 5, 6, 7, 8};
  }

  lemma NamesNoTime(p: string, kind: AtomKind)
    requires Names(p, kind)
    ensures ClashAt("temporal:", p, 0) || ClashAt("temporal:", p, 2)
  {
  }

  lemma NotBefore(p: string, kind: AtomKind, rest: string, j: nat)
    requires Names(p, kind) && j < IndexOf(p, kind)
    ensures !StartsWith(p + rest, PREFIXES[j].0)
  {
    hide StartsWith, PREFIXES, Names, IndexOf;
    Clashes(p, kind, j);
    var q := PREFIXES[j].0;
    ClashIsNoPrefix(q, p, rest, if ClashAt(q, p, 0) then 0 else if ClashAt(q, p, 4) then 4 else 7);
  }

  lemma NotTime(p: string, kind: AtomKind, rest: string)
    requires Names(p, kind)
    ensures !StartsWith(p + rest, "temporal:")
  {
    hide StartsWith, Names;
    NamesNoTime(p, kind);
    ClashIsNoPrefix("temporal:", p, rest, if ClashAt("temporal:", p, 0) then 0 else 2);
  }

  // Each kind goes by its own prefix or an older one, in whatever case, and what follows is its value, stripped.
  lemma PrefixesInAnyCase(p: string, kind: AtomKind, value: string)
    requires Names(Lower(p), kind)
    ensures PlainAtom(p + value) == Some(Atom(kind, Strip(value)))
  {
    hide *;
    var text, q := p + value, Lower(p);
    LowerJoin(p, value);
    NotTime(q, kind, Lower(value));
    forall j | 0 <= j < IndexOf(q, kind)
      ensures !StartsWith(Lower(text), PREFIXES[j].0)
    {
      NotBefore(q, kind, Lower(value), j);
    }
    PrefixStands(q, Lower(value));
    PrefixFound(text, PREFIXES, IndexOf(q, kind));
    assert text[|q|..] == value;
    PlainByPrefix(text, Atom(kind, Strip(value)));
  }

  // ----- bare names

  lemma {:induction false} NoPrefixWithout(text: string, prefixes: seq<(string, AtomKind)>)
    requires forall i :: 0 <= i < |prefixes| ==> !StartsWith(Lower(text), prefixes[i].0)
    ensures ByPrefix(text, prefixes) == None
    decreases |prefixes|
  {
    hide StartsWith, Lower;
    if prefixes != [] {
      assert forall i :: 0 <= i < |prefixes| - 1 ==> prefixes[1..][i] == prefixes[i + 1];
      NoPrefixWithout(text, prefixes[1..]);
    }
  }

  lemma EndsInColon(i: nat)
    requires i < |PREFIXES|
    ensures ':' in PREFIXES[i].0
  {
    assert i in {0, 1, 2, 3, 4, 5, 6, 7, 8, 9};
    var p := PREFIXES[i].0;
    assert p[|p| - 1] == ':';
  }

  lemma ColonIsNoLetter(text: string, p: string)
    requires ':' in p && ':' !in text
    ensures !StartsWith(Lower(text), p)
  {
    var i :| 0 <= i < |p| && p[i] == ':';
    forall j | 0 <= j < |text|
      ensures Lower(text)[j] != ':'
    {
      assert text[j] in text;
    }
  }

  // What is left without dashes and underscores.
  function Bared(text: string): string {
    if text == [] then [] else (if text[0] == '_' || text[0] == '-' then [] else [text[0]]) + Bared(text[1..])
  }

  lemma {:induction false} BaredExactly(text: string)
    ensures forall c :: c in Bared(text) <==> c in text && c != '_' && c != '-'
  {
    if text != [] {
      BaredExactly(text[1..]);
    }
  }

  // Letters and digits, at least one, once dashes and underscores are taken out.
  lemma BareRoleByLetters(text: string)
    ensures IsBareRole(text) <==> Bared(text) != [] && forall c :: c in Bared(text) ==> IsAlnum(c)
  {
    BaredExactly(text);
    DashesAreNoLetters();
    hide IsAlnum, Bared;
    if IsBareRole(text) {
      var i :| 0 <= i < |text| && IsAlnum(text[i]);
      assert text[i] in text;
      assert text[i] in Bared(text);
    }
    if Bared(text) != [] && forall c :: c in Bared(text) ==> IsAlnum(c) {
      var c := Bared(text)[0];
      assert c in Bared(text);
      var i :| 0 <= i < |text| && text[i] == c;
      forall j | 0 <= j < |text|
        ensures IsAlnum(text[j]) || text[j] == '_' || text[j] == '-'
      {
        assert text[j] in text;
      }
    }
  }

  lemma DashesAreNoLetters()
    ensures !IsAlnum('_') && !IsAlnum('-')
  {
  }

  // A colon needs a known prefix before it.
  lemma UnknownPrefixRefused(text: string)
    requires ':' in text
    requires forall k: nat, kind :: k <= |text| ==> !Names(Lower(text[..k]), kind)
    requires |text| >= 9 ==> Lower(text[..9]) != "temporal:"
    ensures PlainAtom(text) == None
  {
    hide Lower, IsBareRole, StartsWith, TemporalAtom, PREFIXES, Names;
    assert !StartsWith(Lower(text), "temporal:") by { NotLed(text, "temporal:"); }
    forall i | 0 <= i < |PREFIXES|
      ensures !StartsWith(Lower(text), PREFIXES[i].0)
    {
      PrefixIsName(i);
      NotLed(text, PREFIXES[i].0);
      assert |PREFIXES[i].0| <= |text| ==> !Names(Lower(text[..|PREFIXES[i].0|]), PREFIXES[i].1);
    }
    NoPrefixWithout(text, PREFIXES);
    ColonIsNotBare(text);
  }

  lemma PrefixIsName(i: nat)
    requires i < |PREFIXES|
    ensures Names(PREFIXES[i].0, PREFIXES[i].1)
  {
    assert i in {0, 1, 2, 3, 4, 5, 6, 7, 8, 9};
  }

  lemma NotLed(text: string, p: string)
    ensures |text| < |p| || Lower(text[..|p|]) != p ==> !StartsWith(Lower(text), p)
  {
    if |p| <= |text| {
      LowerSlices(text, |p|);
    }
    hide Lower;
  }

  lemma ColonIsNotBare(text: string)
    requires ':' in text
    ensures !IsBareRole(text)
  {
    var i :| 0 <= i < |text| && text[i] == ':';
  }

  // Letters and digits with dashes and underscores among them, and no colon, name a role; anything else without a
  // colon is unsupported.
  lemma BareRolesExactly(text: string)
    requires ':' !in text
    ensures PlainAtom(text) == if IsBareRole(text) then Some(Atom(Role, text)) else None
  {
    hide Lower, IsBareRole, StartsWith, TemporalAtom, PREFIXES;
    assert "temporal:"[8] == ':';
    ColonIsNoLetter(text, "temporal:");
    forall i | 0 <= i < |PREFIXES|
      ensures !StartsWith(Lower(text), PREFIXES[i].0)
    {
      EndsInColon(i);
      ColonIsNoLetter(text, PREFIXES[i].0);
    }
    NoPrefixWithout(text, PREFIXES);
  }

  // ----- times

  predicate Orders(word: string, op: TemporalOp) {
    match op
    case Before => word == "before"
    case After => word == "after"
    case Expires => word == "expires"
  }

  // A time is an operator in whatever case, a colon and a bound, which may hold colons; without the colon, or with
  // another word, it is unsupported.
  lemma TimesInAnyCase(p: string, word: string, bound: string, op: TemporalOp)
    requires Lower(p) == "temporal:" && ':' !in word
    ensures Orders(Lower(Strip(word)), op) ==> PlainAtom(p + (word + (":" + bound))) == Some(Atom(Temporal(op), Strip(bound)))
    ensures (forall o :: !Orders(Lower(Strip(word)), o)) ==> PlainAtom(p + (word + (":" + bound))) == None
    ensures PlainAtom(p + word) == None
  {
    hide *;
    var rest := word + (":" + bound);
    TimeStarts(p, rest);
    TimeStarts(p, word);
    ColonAfterWord(word, ":" + bound);
    ColonSplits(word, bound);
    NoColon(word);
    OrderRead(rest, word, bound, op);
    NoTime(word);
  }

  lemma TimeStarts(p: string, rest: string)
    requires Lower(p) == "temporal:"
    ensures PlainAtom(p + rest) == TemporalAtom(rest)
  {
    LowerJoin(p, rest);
    var l := Lower(p + rest);
    PrefixStands("temporal:", Lower(rest));
    assert |p| == |Lower(p)| == 9 && (p + rest)[9..] == rest;
    hide Lower, TemporalAtom, ByPrefix, IsBareRole, StartsWith;
  }

  lemma {:induction false} NoColon(word: string)
    requires ':' !in word
    ensures ColonAt(word) == |word|
  {
    if word != [] {
      assert word[0] in word;
      NoColon(word[1..]);
    }
  }

  lemma NoTime(word: string)
    requires ColonAt(word) == |word|
    ensures TemporalAtom(word) == None
  {
  }

  lemma OrderRead(rest: string, word: string, bound: string, op: TemporalOp)
    requires rest == word + (":" + bound) && ColonAt(rest) == |word|
    ensures Orders(Lower(Strip(word)), op) ==> TemporalAtom(rest) == Some(Atom(Temporal(op), Strip(bound)))
    ensures (forall o :: !Orders(Lower(Strip(word)), o)) ==> TemporalAtom(rest) == None
  {
    assert rest[..|word|] == word && rest[|word| + 1..] == bound;
    var w := Lower(Strip(word));
    assert (forall o :: !Orders(w, o)) ==> !Orders(w, Before) && !Orders(w, After) && !Orders(w, Expires);
    hide Strip, Lower, ColonAt;
  }

  // ----- separators

  function LowerAll(ps: seq<string>): seq<string> {
    if ps == [] then [] else [Lower(ps[0])] + LowerAll(ps[1..])
  }

  // Which separator stands where is a matter of lower-case letters.
  lemma SepInAnyCase(s: string, sep: string, prev: Option<char>)
    requires sep in [OR_SEP, AND_SEP]
    ensures SepAt(Lower(s), sep, prev) == SepAt(s, sep, prev)
  {
    hide Lower, LowerChar, IsAlnum;
    if |sep| <= |s| {
      LowerSlices(s, |sep|);
      LowerTwice(s[..|sep|]);
      SepsHaveSpaces(sep);
    }
  }

  lemma SepsHaveSpaces(sep: string)
    requires sep in [OR_SEP, AND_SEP]
    ensures sep != [] && IsSpace(sep[0]) && IsSpace(sep[|sep| - 1])
  {
  }

  lemma {:induction false} PiecesInAnyCase(s: string, sep: string, prev: Option<char>, depth: int, buf: string)
    requires sep in [OR_SEP, AND_SEP]
    ensures Pieces(Lower(s), sep, None, depth, Lower(buf)) == LowerAll(Pieces(s, sep, prev, depth, buf))
    decreases |s|
  {
    hide SepAt, Lower, LowerChar, IsSpace, Strip;
    LowerStrips(buf);
    if s != [] {
      var l := Lower(s);
      LowerKeeps(s[0]);
      SepInAnyCase(s, sep, None);
      SepBringsSpaces(s, sep, None, prev);
      LowerSlices(s, 1);
      LowerJoin(buf, [s[0]]);
      OneLower(s[0]);
      SepsHaveSpaces(sep);
      var d := Deeper(s[0], depth);
      if s[0] != '(' && s[0] != ')' && depth == 0 && SepAt(s, sep, prev) {
        SepFits(s, sep, prev);
        LowerSlices(s, |sep|);
        PiecesInAnyCase(s[|sep|..], sep, Some(s[|sep| - 1]), depth, []);
        PreviousIsIdle(l[|sep|..], sep, None, Some(l[|sep| - 1]), depth, []);
        LowerNothing();
      } else {
        PiecesInAnyCase(s[1..], sep, Some(s[0]), d, buf + [s[0]]);
        PreviousIsIdle(l[1..], sep, None, Some(l[0]), d, Lower(buf) + [l[0]]);
      }
    }
  }

  lemma SepFits(s: string, sep: string, prev: Option<char>)
    requires sep != [] && SepAt(s, sep, prev)
    ensures |sep| <= |s|
  {
  }

  lemma {:induction false} NonEmptyLower(ps: seq<string>)
    ensures NonEmpty(LowerAll(ps)) == LowerAll(NonEmpty(ps))
  {
    hide Lower;
    if ps != [] {
      assert LowerAll(ps)[1..] == LowerAll(ps[1..]);
      assert |Lower(ps[0])| == |ps[0]|;
      NonEmptyLower(ps[1..]);
    }
  }

  lemma {:induction false} LowerAllCount(ps: seq<string>)
    ensures |LowerAll(ps)| == |ps|
  {
    if ps != [] {
      LowerAllCount(ps[1..]);
    }
  }

  // ` or ` and ` and ` are found in whatever case: a text splits where its lower-case form does.
  lemma SplitsInAnyCase(text: string, sep: string)
    requires sep in [OR_SEP, AND_SEP]
    ensures var parts := SplitTop(text, sep);
      SplitTop(Lower(text), sep) == if parts.None? then None else Some(LowerAll(parts.value))
  {
    hide Pieces, NonEmpty, Lower, LowerAll;
    LowerNothing();
    PiecesInAnyCase(text, sep, None, 0, []);
    LowerAllCount(Pieces(text, sep, None, 0, []));
    NonEmptyLower(Pieces(text, sep, None, 0, []));
  }

  lemma CutTwice(a: string, b: string, sep: string)
    requires sep in [OR_SEP, AND_SEP] && Word(a) && Word(b)
    ensures Cut(a + (sep + (sep + b)), sep, 0, []) == [a, "", b]
  {
    hide *;
    CutWord(a, sep + (sep + b), sep, []);
    CutSeparator(sep, sep + b, [] + a);
    CutSeparator(sep, b, []);
    CutWord(b, "", sep, []);
    SepsHaveSpaces(sep);
    CutEnd(sep, [] + b);
    assert b + "" == b && [] + a == a && [] + b == b;
    StripWord(a);
    StripWord(b);
    NothingIsWord();
    StripWord("");
    assert [a] + ([""] + [b]) == [a, "", b];
  }

  lemma NothingIsWord()
    ensures Word("")
  {
  }

  // A blank between two separators is no operand.
  lemma BlanksAreDropped(a: string, b: string, sep: string)
    requires sep in [OR_SEP, AND_SEP] && Word(a) && Word(b) && a != "" && b != ""
    ensures SplitTop(a + (sep + (sep + b)), sep) == Some([a, b])
  {
    CutTwice(a, b, sep);
    hide Pieces;
    assert [a, "", b][1..] == ["", b] && ["", b][1..] == [b] && [b][1..] == [];
    assert NonEmpty([b]) == [b] && NonEmpty(["", b]) == [b];
    assert NonEmpty([a, "", b]) == [a, b];
  }
}
