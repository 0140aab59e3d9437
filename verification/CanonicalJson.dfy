/** The canonical JSON encoder: RFC 8785 escaping, members sorted by key, no insignificant whitespace. */
module CanonicalJson {
  import opened Wrappers
  import opened Sorting
  import opened Text

  // What the encoder may be handed. A tuple is written as a list and is one here; a dict is its entries in insertion order.
  datatype PyValue =
    | PyNone
    | PyBool(b: bool)
    | PyInt(n: int)
    | PyStr(s: string)
    | PyList(items: seq<PyValue>)
    | PyDict(entries: seq<(PyKey, PyValue)>)
    | PyOther

  datatype PyKey = StrKey(name: string) | OtherKey

  // A dict holds each key once.
  ghost predicate WellFormed(v: PyValue) {
    match v
    case PyList(items) => forall x :: x in items ==> WellFormed(x)
    case PyDict(entries) =>
      && (forall e :: e in entries ==> WellFormed(e.1))
      && (forall i, j :: 0 <= i < j < |entries| ==> entries[i].0 != entries[j].0)
    case _ => true
  }

  // ----- strings

  function HexDigit(d: nat): char
    requires d < 16
  {
    "0123456789abcdef"[d]
  }

  function Hex4(code: nat): string
    requires code < 0x10000
  {
    [HexDigit(code / 0x1000), HexDigit(code / 0x100 % 16), HexDigit(code / 0x10 % 16), HexDigit(code % 16)]
  }

  function EscapeChar(ch: char): string {
    if ch == '"' then "\\\""
    else if ch == '\\' then "\\\\"
    else if ch == '\U{8}' then "\\b"
    else if ch == '\U{C}' then "\\f"
    else if ch == '\n' then "\\n"
    else if ch == '\r' then "\\r"
    else if ch == '\t' then "\\t"
    else if ch as int < 0x20 then "\\u" + Hex4(ch as int)
    else [ch]
  }

  const SHORT_ESCAPED: set<char> := {'"', '\\', '\U{8}', '\U{C}', '\n', '\r', '\t'}

  // Characters that need no escape stand for themselves; the seven with a short escape take two characters, and the
  // other controls six; nothing that comes out is a control character.
  lemma EscapesOnlyWhereNeeded(ch: char)
    ensures EscapeChar(ch) == [ch] <==> ch as int >= 0x20 && ch != '"' && ch != '\\'
    ensures |EscapeChar(ch)| == if EscapeChar(ch) == [ch] then 1 else if ch in SHORT_ESCAPED then 2 else 6
    ensures forall c :: c in EscapeChar(ch) ==> c as int >= 0x20
  {
    if ch as int < 0x20 && ch !in SHORT_ESCAPED {
      var code := ch as int;
      HexIsPrintable(code / 0x1000);
      HexIsPrintable(code / 0x100 % 16);
      HexIsPrintable(code / 0x10 % 16);
      HexIsPrintable(code % 16);
    }
  }

  lemma HexIsPrintable(d: nat)
    requires d < 16
    ensures HexDigit(d) as int >= 0x20
  {
  }

  function EscapeAll(value: string): string {
    if value == [] then [] else EscapeAll(value[..|value| - 1]) + EscapeChar(value[|value| - 1])
  }

  function Quoted(value: string): string {
    "\"" + EscapeAll(value) + "\""
  }

  function Concat(parts: seq<string>): string {
    if parts == [] then [] else Concat(parts[..|parts| - 1]) + parts[|parts| - 1]
  }

  lemma ConcatGrows(parts: seq<string>, part: string)
    ensures Concat(parts + [part]) == Concat(parts) + part
  {
    assert (parts + [part])[..|parts|] == parts;
  }

  lemma EscapeAllGrows(value: string, i: nat)
    requires i < |value|
    ensures EscapeAll(value[..i + 1]) == EscapeAll(value[..i]) + EscapeChar(value[i])
  {
    assert value[..i + 1][..i] == value[..i];
  }

  method EncodeString(value: string) returns (text: string)
    ensures text == Quoted(value)
  {
    hide Concat, EscapeAll, Hex4;
    var parts: seq<string> := [];
    ConcatOfNone();
    ConcatGrows(parts, "\"");
    parts := parts + ["\""];
    EscapeAllOfNone();
    for i := 0 to |value|
      invariant Concat(parts) == "\"" + EscapeAll(value[..i])
    {
      var ch := value[i];
      var code := ch as int;
      var part;
      if ch == '"' {
        part := "\\\"";
      } else if ch == '\\' {
        part := "\\\\";
      } else if ch == '\U{8}' {
        part := "\\b";
      } else if ch == '\U{C}' {
        part := "\\f";
      } else if ch == '\n' {
        part := "\\n";
      } else if ch == '\r' {
        part := "\\r";
      } else if ch == '\t' {
        part := "\\t";
      } else if code < 0x20 {
        part := "\\u" + Hex4(code);
      } else {
        part := [ch];
      }
      ConcatGrows(parts, part);
      EscapeAllGrows(value, i);
      parts := parts + [part];
    }
    assert value[..|value|] == value;
    ConcatGrows(parts, "\"");
    parts := parts + ["\""];
    text := Concat(parts);
  }

  lemma ConcatOfNone()
    ensures Concat([]) == ""
  {
  }

  lemma EscapeAllOfNone()
    ensures EscapeAll("") == ""
  {
  }

  // ----- integers

  function IntText(n: int): string {
    if n < 0 then "-" + Decimal(-n) else Decimal(n)
  }

  // ----- values

  predicate KeyLeq<T>(a: (string, T), b: (string, T)) {
    StringLeq(a.0, b.0)
  }

  function ByKey<T>(): Order<(string, T)> {
    (a, b) => KeyLeq(a, b)
  }

  // The dict's items, in insertion order; None when some key is not a string.
  function Items(entries: seq<(PyKey, PyValue)>): (r: Option<seq<(string, PyValue)>>)
    ensures r.Some? ==> |r.value| == |entries|
    ensures r.Some? ==> forall i :: 0 <= i < |entries| ==> entries[i] == (StrKey(r.value[i].0), r.value[i].1)
    ensures r.None? <==> exists i :: 0 <= i < |entries| && entries[i].0.OtherKey?
  {
    if entries == [] then Some([])
    else
      var rest := Items(entries[1..]);
      if entries[0].0.OtherKey? || rest.None? then None
      else Some([(entries[0].0.name, entries[0].1)] + rest.value)
  }

  function SortedItems(entries: seq<(PyKey, PyValue)>): (r: Option<seq<(string, PyValue)>>)
    ensures r.Some? ==> forall m :: m in r.value <==> (StrKey(m.0), m.1) in entries
  {
    var items := Items(entries);
    if items.None? then None
    else
      SortPermutes(ByKey<PyValue>(), items.value);
      SameElements(Sort(ByKey<PyValue>(), items.value), items.value);
      Some(Sort(ByKey<PyValue>(), items.value))
  }

  // The canonical text; None where the source raises CanonicalJsonError.
  function Encode(v: PyValue): Option<string>
    decreases v, 1, 0
  {
    match v
    case PyNone => Some("null")
    case PyBool(b) => Some(if b then "true" else "false")
    case PyInt(n) => Some(IntText(n))
    case PyStr(s) => Some(Quoted(s))
    case PyList(items) =>
      var inner := EncodeItems(items);
      if inner.None? then None else Some("[" + inner.value + "]")
    case PyDict(entries) =>
      var sorted := SortedItems(entries);
      if sorted.None? then None
      else
        var inner := EncodeMembers(v, sorted.value);
        if inner.None? then None else Some("{" + inner.value + "}")
    case PyOther => None
  }

  // The elements joined by commas.
  function EncodeItems(items: seq<PyValue>): Option<string>
    decreases items, 0, 0
  {
    if items == [] then Some("")
    else
      var head, tail := Encode(items[0]), EncodeItems(items[1..]);
      if head.None? || tail.None? then None
      else Some(head.value + (if |items| == 1 then "" else "," + tail.value))
  }

  function EncodeMembers(owner: PyValue, members: seq<(string, PyValue)>): Option<string>
    requires forall m :: m in members ==> m.1 < owner
    decreases owner, 0, |members|
  {
    if members == [] then Some("")
    else
      var head, tail := Encode(members[0].1), EncodeMembers(owner, members[1..]);
      if head.None? || tail.None? then None
      else Some(Quoted(members[0].0) + ":" + head.value + (if |members| == 1 then "" else "," + tail.value))
  }

  function CanonicalDumps(v: PyValue): Result<string, string> {
    match Encode(v)
    case Some(text) => Ok(text)
    case None => Err("CanonicalJsonError")
  }

  // ----- what is representable

  predicate Supported(v: PyValue) {
    match v
    case PyList(items) => forall x :: x in items ==> Supported(x)
    case PyDict(entries) => forall e :: e in entries ==> e.0.StrKey? && Supported(e.1)
    case PyOther => false
    case _ => true
  }

  // The encoder fails exactly on a key that is no string or a value of another type, at any depth.
  lemma {:induction false} EncodesSupported(v: PyValue)
    ensures Encode(v).Some? <==> Supported(v)
    decreases v, 1, 0
  {
    match v
    case PyList(items) =>
      ItemsSupported(items);
    case PyDict(entries) =>
      var sorted := SortedItems(entries);
      if sorted.Some? {
        MembersSupported(v, sorted.value);
        assert forall m :: m in sorted.value <==> (StrKey(m.0), m.1) in entries;
        assert forall e :: e in entries ==> (e.0.name, e.1) in sorted.value;
      }
    case _ =>
  }

  lemma {:induction false} ItemsSupported(items: seq<PyValue>)
    ensures EncodeItems(items).Some? <==> forall x :: x in items ==> Supported(x)
    decreases items, 0, 0
  {
    if items != [] {
      EncodesSupported(items[0]);
      ItemsSupported(items[1..]);
      assert forall x :: x in items <==> x == items[0] || x in items[1..];
    }
  }

  lemma {:induction false} MembersSupported(owner: PyValue, members: seq<(string, PyValue)>)
    requires forall m :: m in members ==> m.1 < owner
    ensures EncodeMembers(owner, members).Some? <==> forall m :: m in members ==> Supported(m.1)
    decreases owner, 0, |members|
  {
    if members != [] {
      EncodesSupported(members[0].1);
      MembersSupported(owner, members[1..]);
      assert forall m :: m in members <==> m == members[0] || m in members[1..];
    }
  }
}
