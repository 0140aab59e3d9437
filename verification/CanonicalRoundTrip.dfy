/** A decoder for canonical texts, and the proof that it inverts the encoder. */
module CanonicalRoundTrip {
  import opened Text
  import opened Wrappers
  import opened Sorting
  import opened CanonicalJson

  // What a value means: values of one type compare as in Python, dicts without order, but booleans are no integers.
  datatype Json =
    | JNull
    | JBool(b: bool)
    | JInt(n: int)
    | JStr(s: string)
    | JArray(items: seq<Json>)
    | JObject(members: map<string, Json>)

  function Denote(v: PyValue): Json
    requires Supported(v)
    decreases v, 1, 0
  {
    match v
    case PyNone => JNull
    case PyBool(b) => JBool(b)
    case PyInt(n) => JInt(n)
    case PyStr(s) => JStr(s)
    case PyList(items) => JArray(DenoteItems(items))
    case PyDict(entries) => JObject(DenoteMembers(v, Items(entries).value))
  }

  function DenoteItems(items: seq<PyValue>): seq<Json>
    requires forall x :: x in items ==> Supported(x)
    decreases items, 0, 0
  {
    if items == [] then [] else [Denote(items[0])] + DenoteItems(items[1..])
  }

  function DenoteMembers(owner: PyValue, members: seq<(string, PyValue)>): map<string, Json>
    requires forall m :: m in members ==> Supported(m.1) && m.1 < owner
    decreases owner, 0, |members|
  {
    if members == [] then map[]
    else DenoteMembers(owner, members[1..])[members[0].0 := Denote(members[0].1)]
  }

  // ----- the decoder: a value and the text after it

  function HexValue(ch: char): Option<nat> {
    if '0' <= ch <= '9' then Some(ch as int - '0' as int)
    else if 'a' <= ch <= 'f' then Some(ch as int - 'a' as int + 10)
    else None
  }

  function DecodeHex4(s: string): Option<char>
    requires |s| >= 4
  {
    var a, b, c, d := HexValue(s[0]), HexValue(s[1]), HexValue(s[2]), HexValue(s[3]);
    if a.None? || b.None? || c.None? || d.None? then None
    else
      var code := ((a.value * 16 + b.value) * 16 + c.value) * 16 + d.value;
      if code < 0xD800 then Some(code as char) else None
  }

  // One character of a string body, escaped or plain.
  function DecodeChar(s: string): (r: Option<(char, string)>)
    requires s != []
    ensures r.Some? ==> |r.value.1| < |s|
  {
    if s[0] != '\\' then if s[0] as int < 0x20 then None else Some((s[0], s[1..]))
    else if |s| == 1 then None
    else if s[1] in ['"', '\\'] then Some((s[1], s[2..]))
    else if s[1] == 'b' then Some(('\U{8}', s[2..]))
    else if s[1] == 'f' then Some(('\U{C}', s[2..]))
    else if s[1] == 'n' then Some(('\n', s[2..]))
    else if s[1] == 'r' then Some(('\r', s[2..]))
    else if s[1] == 't' then Some(('\t', s[2..]))
    else if s[1] == 'u' && |s| >= 6 && DecodeHex4(s[2..]).Some? then Some((DecodeHex4(s[2..]).value, s[6..]))
    else None
  }

  // A string body up to and including its closing quote.
  function DecodeBody(s: string): (r: Option<(string, string)>)
    ensures r.Some? ==> |r.value.1| < |s|
    decreases |s|
  {
    if s == [] then None
    else if s[0] == '"' then Some(("", s[1..]))
    else
      var first := DecodeChar(s);
      if first.None? then None
      else
        var rest := DecodeBody(first.value.1);
        if rest.None? then None else Some(([first.value.0] + rest.value.0, rest.value.1))
  }

  function DecodeString(s: string): (r: Option<(string, string)>)
    ensures r.Some? ==> |r.value.1| < |s|
  {
    if s == [] || s[0] != '"' then None else DecodeBody(s[1..])
  }

  predicate StartsWithDigit(s: string) { s != [] && IsDigit(s[0]) }

  function ReadDigits(s: string, sofar: nat): (r: (nat, string))
    ensures |r.1| <= |s|
    decreases |s|
  {
    if StartsWithDigit(s) then ReadDigits(s[1..], sofar * 10 + (s[0] as int - '0' as int)) else (sofar, s)
  }

  function DecodeInt(s: string): (r: Option<(int, string)>)
    ensures r.Some? ==> |r.value.1| < |s|
  {
    if StartsWithDigit(s) then
      var (n, rest) := ReadDigits(s[1..], s[0] as int - '0' as int);
      Some((n, rest))
    else if s != [] && s[0] == '-' && StartsWithDigit(s[1..]) then
      var (n: int, rest) := ReadDigits(s[2..], s[1] as int - '0' as int);
      Some((-n, rest))
    else None
  }

  function DecodeValue(s: string): (r: Option<(Json, string)>)
    ensures r.Some? ==> |r.value.1| < |s|
    decreases |s|, 1
  {
    if s == [] then None
    else if "null" <= s then Some((JNull, s[4..]))
    else if "true" <= s then Some((JBool(true), s[4..]))
    else if "false" <= s then Some((JBool(false), s[5..]))
    else if s[0] == '"' then
      var r := DecodeString(s);
      if r.None? then None else Some((JStr(r.value.0), r.value.1))
    else if s[0] == '[' then
      if "[]" <= s then Some((JArray([]), s[2..]))
      else
        var r := DecodeItems(s[1..]);
        if r.None? then None else Some((JArray(r.value.0), r.value.1))
    else if s[0] == '{' then
      if "{}" <= s then Some((JObject(map[]), s[2..]))
      else
        var r := DecodeMembers(s[1..]);
        if r.None? then None else Some((JObject(r.value.0), r.value.1))
    else
      var r := DecodeInt(s);
      if r.None? then None else Some((JInt(r.value.0), r.value.1))
  }

  function DecodeItems(s: string): (r: Option<(seq<Json>, string)>)
    ensures r.Some? ==> |r.value.1| < |s|
    decreases |s|, 2
  {
    var first := DecodeValue(s);
    if first.None? then None
    else
      var (v, rest) := first.value;
      if "]" <= rest then Some(([v], rest[1..]))
      else if "," <= rest then
        var more := DecodeItems(rest[1..]);
        if more.None? then None else Some(([v] + more.value.0, more.value.1))
      else None
  }

  function DecodeMembers(s: string): (r: Option<(map<string, Json>, string)>)
    ensures r.Some? ==> |r.value.1| < |s|
    decreases |s|, 2
  {
    var key := DecodeString(s);
    if key.None? || !(":" <= key.value.1) then None
    else
      var first := DecodeValue(key.value.1[1..]);
      if first.None? then None
      else
        var (v, rest) := first.value;
        if "}" <= rest then Some((map[key.value.0 := v], rest[1..]))
        else if "," <= rest then
          var more := DecodeMembers(rest[1..]);
          if more.None? then None else Some((more.value.0[key.value.0 := v], more.value.1))
        else None
  }

  // ----- strings come back

  lemma Hex4Decodes(ch: char, rest: string)
    requires ch as int < 0x20
    ensures DecodeHex4(Hex4(ch as int) + rest) == Some(ch)
  {
    var code := ch as int;
    assert code / 0x1000 == 0 && code / 0x100 % 16 == 0 && code / 0x10 % 16 == code / 0x10;
  }

  lemma ControlDecodes(ch: char, rest: string)
    requires ch as int < 0x20
    ensures DecodeChar("\\u" + Hex4(ch as int) + rest) == Some((ch, rest))
  {
    Hex4Decodes(ch, rest);
    hide Hex4, DecodeHex4;
    var s := "\\u" + Hex4(ch as int) + rest;
    assert s[0] == '\\' && s[1] == 'u';
    assert s[2..] == Hex4(ch as int) + rest && s[6..] == rest;
  }

  lemma ShortDecodes(ch: char, rest: string)
    requires ch in SHORT_ESCAPED
    ensures EscapeChar(ch) + rest != [] && (EscapeChar(ch) + rest)[0] != '"'
    ensures DecodeChar(EscapeChar(ch) + rest) == Some((ch, rest))
  {
    hide Hex4, DecodeHex4;
    var s := EscapeChar(ch) + rest;
    assert |EscapeChar(ch)| == 2 && s[2..] == rest;
  }

  lemma CharDecodes(ch: char, rest: string)
    ensures EscapeChar(ch) + rest != [] && (EscapeChar(ch) + rest)[0] != '"'
    ensures DecodeChar(EscapeChar(ch) + rest) == Some((ch, rest))
  {
    hide Hex4, DecodeHex4;
    if ch in SHORT_ESCAPED {
      ShortDecodes(ch, rest);
    } else if ch as int < 0x20 {
      ControlDecodes(ch, rest);
    } else {
      assert EscapeChar(ch) == [ch] && ([ch] + rest)[1..] == rest;
    }
  }

  lemma {:induction false} EscapeAllFromFront(value: string)
    requires value != []
    ensures EscapeAll(value) == EscapeChar(value[0]) + EscapeAll(value[1..])
  {
    var last := |value| - 1;
    if last > 0 {
      EscapeAllFromFront(value[..last]);
      assert value[..last][1..] == value[1..][..last - 1];
    }
  }

  lemma {:induction false} BodyDecodes(value: string, rest: string)
    ensures DecodeBody(EscapeAll(value) + "\"" + rest) == Some((value, rest))
  {
    hide EscapeChar, DecodeChar, EscapeAll;
    var s := EscapeAll(value) + "\"" + rest;
    if value == [] {
      EscapeAllOfNone();
      assert s == "\"" + rest;
    } else {
      EscapeAllFromFront(value);
      var tail := EscapeAll(value[1..]) + "\"" + rest;
      assert s == EscapeChar(value[0]) + tail;
      CharDecodes(value[0], tail);
      BodyDecodes(value[1..], rest);
      assert value == [value[0]] + value[1..];
    }
  }

  lemma StringDecodes(value: string, rest: string)
    ensures DecodeString(Quoted(value) + rest) == Some((value, rest))
  {
    BodyDecodes(value, rest);
    hide EscapeAll, DecodeBody;
    assert (Quoted(value) + rest)[1..] == EscapeAll(value) + "\"" + rest;
  }

  // ----- integers come back

  lemma {:induction false} DigitsDecode(n: nat, rest: string)
    ensures StartsWithDigit(Decimal(n))
    ensures var s := Decimal(n) + rest;
      ReadDigits(s[1..], s[0] as int - '0' as int) == ReadDigits(rest, n)
  {
    var s := Decimal(n) + rest;
    if n < 10 {
      assert s[1..] == rest;
    } else {
      var more := [('0' as int + n % 10) as char] + rest;
      DigitsDecode(n / 10, more);
      assert s == Decimal(n / 10) + more;
      assert more[1..] == rest;
    }
  }

  lemma NatDecodes(n: int, rest: string)
    requires n >= 0 && !StartsWithDigit(rest)
    ensures DecodeInt(Decimal(n) + rest) == Some((n, rest))
    ensures DecodeInt("-" + Decimal(n) + rest) == Some((-n, rest))
  {
    DigitsDecode(n, rest);
    hide IntText, Decimal, ReadDigits;
    var s := Decimal(n) + rest;
    var t := "-" + Decimal(n) + rest;
    assert t[1..] == s && t[2..] == s[1..] && t[1] == s[0];
    assert StartsWithDigit(s) && !StartsWithDigit(t);
  }

  lemma IntDecodes(n: int, rest: string)
    requires !StartsWithDigit(rest)
    ensures DecodeInt(IntText(n) + rest) == Some((n, rest))
    ensures IntText(n)[0] == '-' || IsDigit(IntText(n)[0])
  {
    hide Decimal, DecodeInt;
    NatDecodes(if n < 0 then -n else n, rest);
    DigitsDecode(if n < 0 then -n else n, rest);
  }

  // ----- dicts are maps

  // Members with equal names are equal.
  ghost predicate Functional<T>(members: seq<(string, T)>) {
    forall a, b :: a in members && b in members && a.0 == b.0 ==> a == b
  }

  lemma {:induction false} MembersMap(owner: PyValue, members: seq<(string, PyValue)>)
    requires Functional(members) && forall m :: m in members ==> Supported(m.1) && m.1 < owner
    ensures forall m :: m in members ==> m.0 in DenoteMembers(owner, members)
                                         && DenoteMembers(owner, members)[m.0] == Denote(m.1)
    ensures forall k :: k in DenoteMembers(owner, members) ==> exists m :: m in members && m.0 == k
    decreases |members|
  {
    if members != [] {
      MembersMap(owner, members[1..]);
      assert forall m :: m in members <==> m == members[0] || m in members[1..];
    }
  }

  lemma SameMembersSameMap(v: PyValue, a: seq<(string, PyValue)>, w: PyValue, b: seq<(string, PyValue)>)
    requires Functional(a) && Functional(b) && forall m :: m in a <==> m in b
    requires forall m :: m in a ==> Supported(m.1) && m.1 < v
    requires forall m :: m in b ==> Supported(m.1) && m.1 < w
    ensures DenoteMembers(v, a) == DenoteMembers(w, b)
  {
    MembersMap(v, a);
    MembersMap(w, b);
    hide DenoteMembers, Denote, Supported;
    var x, y := DenoteMembers(v, a), DenoteMembers(w, b);
    forall k
      ensures k in x <==> k in y
      ensures k in x ==> x[k] == y[k]
    {
      if k in x {
        var m :| m in a && m.0 == k;
      }
      if k in y {
        var m :| m in b && m.0 == k;
      }
    }
  }

  lemma ItemsFunctional(v: PyValue)
    requires v.PyDict? && WellFormed(v) && Items(v.entries).Some?
    ensures Functional(Items(v.entries).value)
  {
    hide Items, SortedItems;
    var items := Items(v.entries).value;
    forall a, b | a in items && b in items && a.0 == b.0
      ensures a == b
    {
      var i :| 0 <= i < |items| && items[i] == a;
      var j :| 0 <= j < |items| && items[j] == b;
      assert v.entries[i].0 == v.entries[j].0;
    }
  }

  // Sorting the items does not change what they mean.
  lemma SortedMeansSame(v: PyValue)
    requires v.PyDict? && WellFormed(v) && Supported(v)
    ensures Items(v.entries).Some? && SortedItems(v.entries).Some?
    ensures forall m :: m in SortedItems(v.entries).value ==> WellFormed(m.1) && Supported(m.1) && m.1 < v
    ensures Denote(v) == JObject(DenoteMembers(v, SortedItems(v.entries).value))
  {
    var items := Items(v.entries).value;
    var sorted := SortedItems(v.entries).value;
    SortPermutes(ByKey<PyValue>(), items);
    SameElements(sorted, items);
    ItemsFunctional(v);
    assert forall m :: m in sorted ==> (StrKey(m.0), m.1) in v.entries;
    SameMembersSameMap(v, items, v, sorted);
  }

  // ----- values come back

  lemma NotAWord(s: string)
    requires s != [] && s[0] !in ['n', 't', 'f']
    ensures !("null" <= s) && !("true" <= s) && !("false" <= s)
  {
    assert "null"[0] == 'n' && "true"[0] == 't' && "false"[0] == 'f';
  }

  lemma BoolDecodes(b: bool, rest: string)
    ensures DecodeValue((if b then "true" else "false") + rest) == Some((JBool(b), rest))
  {
    var text := if b then "true" else "false";
    var s := text + rest;
    assert s[|text|..] == rest;
    assert s[0] == if b then 't' else 'f';
    assert "null"[0] == 'n' && "true"[0] == 't' && "false"[0] == 'f';
  }

  lemma IntValueDecodes(n: int, rest: string)
    requires !StartsWithDigit(rest)
    ensures DecodeValue(IntText(n) + rest) == Some((JInt(n), rest))
  {
    IntDecodes(n, rest);
    hide IntText, DecodeInt;
    NotAWord(IntText(n) + rest);
  }

  lemma StringValueDecodes(value: string, rest: string)
    ensures DecodeValue(Quoted(value) + rest) == Some((JStr(value), rest))
  {
    StringDecodes(value, rest);
    assert (Quoted(value) + rest)[0] == '"';
    NotAWord(Quoted(value) + rest);
    hide Quoted, DecodeString;
  }

  lemma FirstCharacter(v: PyValue)
    requires Encode(v).Some?
    ensures Encode(v).value != [] && Encode(v).value[0] !in [']', '}']
  {
    if v.PyInt? {
      IntDecodes(v.n, "");
    }
  }

  // decode(encode(v) + rest) gives back v and rest, for every rest that cannot lengthen a number.
  lemma {:induction false} ValueDecodes(v: PyValue, text: string, rest: string)
    requires WellFormed(v) && Supported(v) && Encode(v) == Some(text) && !StartsWithDigit(rest)
    ensures DecodeValue(text + rest) == Some((Denote(v), rest))
    decreases v, 1, 0
  {
    match v
    case PyNone =>
      assert (text + rest)[4..] == rest;
    case PyBool(b) =>
      BoolDecodes(b, rest);
    case PyInt(n) =>
      IntValueDecodes(n, rest);
    case PyStr(s) =>
      StringValueDecodes(s, rest);
    case PyList(items) =>
      ListDecodes(items, rest);
    case PyDict(entries) =>
      DictDecodes(v, rest);
  }

  lemma {:induction false} ListDecodes(items: seq<PyValue>, rest: string)
    requires forall x :: x in items ==> WellFormed(x) && Supported(x)
    requires EncodeItems(items).Some?
    ensures DecodeValue("[" + EncodeItems(items).value + "]" + rest) == Some((JArray(DenoteItems(items)), rest))
    decreases items, 0, 1
  {
    var inner := EncodeItems(items).value;
    var s := "[" + inner + "]" + rest;
    NotAWord(s);
    if items == [] {
      assert s[2..] == rest;
    } else {
      FirstCharacter(items[0]);
      assert s[1] == inner[0] == Encode(items[0]).value[0];
      assert !("[]" <= s) by { assert "[]"[1] == ']'; }
      assert s[1..] == inner + "]" + rest;
      ItemsDecode(items, rest);
    }
  }

  lemma {:induction false} ItemsDecode(items: seq<PyValue>, rest: string)
    requires items != [] && forall x :: x in items ==> WellFormed(x) && Supported(x)
    requires EncodeItems(items).Some?
    ensures DecodeItems(EncodeItems(items).value + "]" + rest) == Some((DenoteItems(items), rest))
    decreases items, 0, 0
  {
    hide Encode, DecodeValue, Denote, WellFormed;
    var s := EncodeItems(items).value + "]" + rest;
    var head := Encode(items[0]).value;
    if |items| == 1 {
      assert s == head + ("]" + rest);
      ValueDecodes(items[0], head, "]" + rest);
      assert ("]" + rest)[1..] == rest && "]" <= "]" + rest;
      assert DenoteItems(items[1..]) == [];
      assert DenoteItems(items) == [Denote(items[0])];
    } else {
      var tail := EncodeItems(items[1..]).value + "]" + rest;
      assert s == head + ("," + tail);
      ValueDecodes(items[0], head, "," + tail);
      assert ("," + tail)[1..] == tail;
      ItemsDecode(items[1..], rest);
    }
  }

  // One member, given how its value decodes.
  lemma MemberDecodes(name: string, head: string, v: Json, after: string)
    requires DecodeValue(head + after) == Some((v, after))
    ensures var r := DecodeMembers(Quoted(name) + ":" + head + after);
      && ("}" <= after ==> r == Some((map[name := v], after[1..])))
      && ("," <= after && DecodeMembers(after[1..]).Some? ==>
            r == Some((DecodeMembers(after[1..]).value.0[name := v], DecodeMembers(after[1..]).value.1)))
  {
    hide Quoted, DecodeString, DecodeValue;
    assert Quoted(name) + ":" + head + after == Quoted(name) + (":" + head + after);
    StringDecodes(name, ":" + head + after);
    assert (":" + head + after)[1..] == head + after && ":" <= ":" + head + after;
    assert ","[0] != "}"[0];
  }

  lemma {:induction false} MembersDecode(owner: PyValue, members: seq<(string, PyValue)>, rest: string)
    requires members != [] && forall m :: m in members ==> WellFormed(m.1) && Supported(m.1) && m.1 < owner
    requires EncodeMembers(owner, members).Some?
    ensures DecodeMembers(EncodeMembers(owner, members).value + "}" + rest)
         == Some((DenoteMembers(owner, members), rest))
    decreases owner, 0, |members|
  {
    hide Quoted, DecodeValue, DecodeMembers, Encode, WellFormed, Supported, Denote;
    var s := EncodeMembers(owner, members).value + "}" + rest;
    var name, head := members[0].0, Encode(members[0].1).value;
    if |members| == 1 {
      var after := "}" + rest;
      assert s == Quoted(name) + ":" + head + after;
      ValueDecodes(members[0].1, head, after);
      MemberDecodes(name, head, Denote(members[0].1), after);
      assert "}" <= after && after[1..] == rest;
      EmptyMembers(owner);
      assert members[1..] == [];
    } else {
      var tail := EncodeMembers(owner, members[1..]).value + "}" + rest;
      var after := "," + tail;
      assert s == Quoted(name) + ":" + head + after;
      ValueDecodes(members[0].1, head, after);
      MemberDecodes(name, head, Denote(members[0].1), after);
      assert "," <= after && after[1..] == tail;
      MembersDecode(owner, members[1..], rest);
    }
  }

  lemma DictShape(v: PyValue)
    requires v.PyDict? && WellFormed(v) && Supported(v)
    ensures SortedItems(v.entries).Some? && EncodeMembers(v, SortedItems(v.entries).value).Some?
    ensures Encode(v) == Some("{" + EncodeMembers(v, SortedItems(v.entries).value).value + "}")
  {
    EncodesSupported(v);
    hide Supported, WellFormed, EncodeMembers, SortedItems;
  }

  lemma MembersStart(owner: PyValue, members: seq<(string, PyValue)>)
    requires members != [] && forall m :: m in members ==> m.1 < owner
    requires EncodeMembers(owner, members).Some?
    ensures EncodeMembers(owner, members).value != [] && EncodeMembers(owner, members).value[0] == '"'
  {
    hide EscapeAll, Encode;
  }

  lemma EmptyMembers(owner: PyValue)
    ensures EncodeMembers(owner, []) == Some("") && DenoteMembers(owner, []) == map[]
  {
  }

  lemma {:induction false} DictDecodes(v: PyValue, rest: string)
    requires v.PyDict? && WellFormed(v) && Supported(v) && Encode(v).Some?
    ensures DecodeValue(Encode(v).value + rest) == Some((Denote(v), rest))
    decreases v, 0, |v.entries| + 1
  {
    hide Encode, EncodeMembers, DenoteMembers, SortedItems, Items, Denote, WellFormed, Supported;
    SortedMeansSame(v);
    DictShape(v);
    var sorted := SortedItems(v.entries).value;
    var inner := EncodeMembers(v, sorted).value;
    var s := Encode(v).value + rest;
    assert s == "{" + inner + "}" + rest;
    NotAWord(s);
    if sorted == [] {
      EmptyMembers(v);
      assert s == "{}" + rest && s[2..] == rest;
    } else {
      MembersStart(v, sorted);
      assert s[1] == '"' && "{}"[1] == '}';
      assert s[1..] == inner + "}" + rest;
      SortedLength(v);
      MembersDecode(v, sorted, rest);
    }
  }

  lemma SortedLength(v: PyValue)
    requires v.PyDict? && SortedItems(v.entries).Some?
    ensures |SortedItems(v.entries).value| == |v.entries|
  {
    SortPermutes(ByKey<PyValue>(), Items(v.entries).value);
    SameElements(SortedItems(v.entries).value, Items(v.entries).value);
  }
}
