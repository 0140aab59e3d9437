/** The Python string operations the parsers use: whitespace, strip, lower case, character classes. */
module Text {

  // str.isspace on one character.
  predicate IsSpace(c: char) {
    var n := c as int;
    0x09 <= n <= 0x0D || 0x1C <= n <= 0x20 || n == 0x85 || n == 0xA0 || n == 0x1680 || 0x2000 <= n <= 0x200A
    || n == 0x2028 || n == 0x2029 || n == 0x202F || n == 0x205F || n == 0x3000
  }

  // The code points one by one.
  lemma SpacesListed(c: char)
    ensures IsSpace(c) <==> c as int in {
      9, 10, 11, 12, 13, 28, 29, 30, 31, 32, 133, 160, 5760, 8192, 8193, 8194, 8195, 8196, 8197, 8198, 8199, 8200, 8201,
      8202, 8232, 8233, 8239, 8287, 12288}
  {
  }

  predicate IsDigit(c: char) { '0' <= c <= '9' }

  predicate IsAlpha(c: char) { 'a' <= c <= 'z' || 'A' <= c <= 'Z' }

  predicate IsAlnum(c: char) { IsAlpha(c) || IsDigit(c) }

  function LowerChar(c: char): char {
    if 'A' <= c <= 'Z' then (c as int + 32) as char else c
  }

  function Lower(s: string): (r: string)
    ensures |r| == |s| && forall i :: 0 <= i < |s| ==> r[i] == LowerChar(s[i])
  {
    if s == [] then [] else [LowerChar(s[0])] + Lower(s[1..])
  }

  function StripLeft(s: string): (r: string)
    ensures |r| <= |s|
  {
    if s != [] && IsSpace(s[0]) then StripLeft(s[1..]) else s
  }

  function StripRight(s: string): (r: string)
    ensures |r| <= |s|
  {
    if s != [] && IsSpace(s[|s| - 1]) then StripRight(s[..|s| - 1]) else s
  }

  function Strip(s: string): (r: string)
    ensures |r| <= |s|
  {
    StripRight(StripLeft(s))
  }

  // Nothing to strip.
  predicate Tight(s: string) {
    s == [] || (!IsSpace(s[0]) && !IsSpace(s[|s| - 1]))
  }

  lemma TightStrips(s: string)
    requires Tight(s)
    ensures Strip(s) == s
  {
  }

  predicate AllSpaces(s: string) { forall i :: 0 <= i < |s| ==> IsSpace(s[i]) }

  lemma SpacesJoin(a: string, b: string)
    ensures AllSpaces(a + b) <==> AllSpaces(a) && AllSpaces(b)
  {
    hide IsSpace;
    var s := a + b;
    assert forall i :: 0 <= i < |a| ==> s[i] == a[i];
    assert forall i :: 0 <= i < |b| ==> s[|a| + i] == b[i];
    assert AllSpaces(a) && AllSpaces(b) ==> forall i :: 0 <= i < |s| ==> IsSpace(s[i]);
  }

  lemma OneSpace(c: char)
    ensures AllSpaces([c]) <==> IsSpace(c)
    ensures AllSpaces([])
  {
    hide IsSpace;
    assert [c][0] == c;
  }

  lemma {:induction false} StripLeftExactly(s: string) returns (k: nat)
    ensures k <= |s| && AllSpaces(s[..k]) && StripLeft(s) == s[k..]
    ensures StripLeft(s) == [] || !IsSpace(StripLeft(s)[0])
  {
    hide IsSpace, AllSpaces;
    k := 0;
    OneSpace(' ');
    if s != [] && IsSpace(s[0]) {
      var j := StripLeftExactly(s[1..]);
      k := j + 1;
      OneSpace(s[0]);
      SpacesJoin([s[0]], s[1..][..j]);
      assert s[..k] == [s[0]] + s[1..][..j] && s[1..][j..] == s[k..];
    }
  }

  lemma {:induction false} StripRightExactly(s: string) returns (k: nat)
    ensures k <= |s| && AllSpaces(s[k..]) && StripRight(s) == s[..k]
    ensures StripRight(s) == [] || !IsSpace(StripRight(s)[|StripRight(s)| - 1])
  {
    hide IsSpace, AllSpaces;
    k := |s|;
    OneSpace(' ');
    assert s[k..] == [] && s[..k] == s;
    if s != [] && IsSpace(s[|s| - 1]) {
      var init, last := s[..|s| - 1], s[|s| - 1];
      k := StripRightExactly(init);
      OneSpace(last);
      SpacesJoin(init[k..], [last]);
      assert s[k..] == init[k..] + [last] && init[..k] == s[..k];
    }
  }

  // Stripping takes the spaces at both ends, and only them.
  lemma StripExactly(s: string) returns (i: nat, j: nat)
    ensures i <= j <= |s| && AllSpaces(s[..i]) && AllSpaces(s[j..]) && Strip(s) == s[i..j]
    ensures Tight(Strip(s))
    ensures Strip(s) == [] <==> AllSpaces(s)
  {
    hide StripLeft, StripRight, IsSpace, AllSpaces;
    i := StripLeftExactly(s);
    var k := StripRightExactly(s[i..]);
    j := i + k;
    assert s[i..][..k] == s[i..j] && s[i..][k..] == s[j..];
    assert s == s[..i] + s[i..j] + s[j..];
    SpacesJoin(s[..i] + s[i..j], s[j..]);
    SpacesJoin(s[..i], s[i..j]);
    TightIsNoSpace(s[i..j]);
    OneSpace(' ');
    assert s[i..] == s[i..j] + s[j..];
    if k > 0 {
      assert s[i..j][0] == s[i..][0];
    }
  }

  lemma TightIsNoSpace(s: string)
    ensures s != [] && !IsSpace(s[0]) ==> !AllSpaces(s)
  {
    hide IsSpace;
  }

  lemma LowerLetters(c: char)
    ensures 'A' <= c <= 'Z' ==> 'a' <= LowerChar(c) <= 'z' && LowerChar(c) - 'a' == c - 'A'
    ensures !('A' <= c <= 'Z') ==> LowerChar(c) == c
    ensures LowerChar(LowerChar(c)) == LowerChar(c)
  {
  }

  lemma LowerJoin(a: string, b: string)
    ensures Lower(a + b) == Lower(a) + Lower(b)
  {
    assert Lower(a + b)[..|a|] == Lower(a);
    assert Lower(a + b)[|a|..] == Lower(b);
  }

  predicate IsLower(s: string) {
    forall i :: 0 <= i < |s| ==> LowerChar(s[i]) == s[i]
  }

  lemma LowerIsSame(s: string)
    requires IsLower(s)
    ensures Lower(s) == s
  {
  }

  lemma LowerKeeps(c: char)
    ensures IsSpace(LowerChar(c)) == IsSpace(c) && IsAlnum(LowerChar(c)) == IsAlnum(c)
    ensures LowerChar(c) == '\n' <==> c == '\n'
    ensures LowerChar(c) == '(' <==> c == '('
    ensures LowerChar(c) == ')' <==> c == ')'
  {
  }

  lemma LowerTwice(s: string)
    ensures Lower(Lower(s)) == Lower(s)
  {
    forall i | 0 <= i < |s|
      ensures Lower(Lower(s))[i] == Lower(s)[i]
    {
      LowerLetters(s[i]);
    }
  }

  lemma LowerSlices(s: string, i: nat)
    requires i <= |s|
    ensures Lower(s[..i]) == Lower(s)[..i] && Lower(s[i..]) == Lower(s)[i..]
  {
    hide Lower, LowerChar;
  }

  lemma {:induction false} LowerStripsLeft(s: string)
    ensures StripLeft(Lower(s)) == Lower(StripLeft(s))
  {
    hide Lower, IsSpace, LowerChar;
    if s != [] {
      LowerKeeps(s[0]);
      LowerSlices(s, 1);
      if IsSpace(s[0]) {
        LowerStripsLeft(s[1..]);
      }
    }
  }

  lemma {:induction false} LowerStripsRight(s: string)
    ensures StripRight(Lower(s)) == Lower(StripRight(s))
    decreases |s|
  {
    hide Lower, IsSpace, LowerChar;
    if s != [] {
      LowerKeeps(s[|s| - 1]);
      LowerSlices(s, |s| - 1);
      if IsSpace(s[|s| - 1]) {
        LowerStripsRight(s[..|s| - 1]);
      }
    }
  }

  lemma LowerStrips(s: string)
    ensures Strip(Lower(s)) == Lower(Strip(s))
  {
    LowerStripsLeft(s);
    LowerStripsRight(StripLeft(s));
    hide StripLeft, StripRight, Lower;
  }

  lemma OneLower(c: char)
    ensures Lower([c]) == [LowerChar(c)]
  {
  }

  lemma LowerNothing()
    ensures Lower([]) == []
  {
  }

  function Decimal(n: nat): string {
    if n < 10 then [('0' as int + n) as char] else Decimal(n / 10) + [('0' as int + n % 10) as char]
  }
}
