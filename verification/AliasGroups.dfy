/** Explicit alias groups: the connected components of the alias facts, found with a stack. */
module AliasGroups {
  import opened Sorting
  import opened Wrappers

  // What an alias fact names: an entity reference, whose kind defaults to the subject's, or a bare identifier.
  datatype AliasValue = Reference(kind: Option<string>, id: Option<string>) | Bare(text: string)

  datatype AliasFact = AliasFact(kind: string, id: string, claim: string, value: AliasValue)

  const ALIAS_CLAIMS: set<string> := {"alias_of", "same_as", "alias"}

  function Left(f: AliasFact): string { f.kind + ":" + f.id }

  function Right(f: AliasFact): string {
    match f.value
    case Reference(kind, id) =>
      (if kind.Some? then kind.value else f.kind) + ":" + (if id.Some? then id.value else "None")
    case Bare(text) => f.kind + ":" + text
  }

  // What an alias fact names is written as the subject of a fact about it would be: a missing kind is the subject's own,
  // a bare value is an identifier of that kind, and a missing identifier reads "None".
  lemma RightNamesSubject(f: AliasFact, g: AliasFact)
    ensures f.value == Reference(Some(g.kind), Some(g.id)) ==> Right(f) == Left(g)
    ensures f.kind == g.kind && f.value in {Reference(None, Some(g.id)), Bare(g.id)} ==> Right(f) == Left(g)
    ensures f.value == Reference(Some(g.kind), None) && g.id == "None" ==> Right(f) == Left(g)
    ensures f.kind == g.kind && f.value == Reference(None, None) && g.id == "None" ==> Right(f) == Left(g)
  {
  }

  // Kinds without a colon and identifiers are told apart by the text.
  lemma LeftTells(f: AliasFact, g: AliasFact)
    requires ':' !in f.kind && ':' !in g.kind
    ensures Left(f) == Left(g) <==> f.kind == g.kind && f.id == g.id
  {
    if Left(f) == Left(g) {
      ColonSplits(f.kind, f.id, g.kind, g.id);
    }
  }

  lemma {:induction false} ColonSplits(k: string, i: string, l: string, j: string)
    requires ':' !in k && ':' !in l && k + ":" + i == l + ":" + j
    ensures k == l && i == j
  {
    var s, t := k + ":" + i, l + ":" + j;
    if k == [] || l == [] {
      assert s[0] == t[0];
      assert k == [] && l == [];
      assert i == s[1..] && j == t[1..];
    } else {
      assert s[0] == k[0] && t[0] == l[0];
      assert k[1..] + ":" + i == s[1..] && l[1..] + ":" + j == t[1..];
      ColonSplits(k[1..], i, l[1..], j);
      assert k == [k[0]] + k[1..] && l == [l[0]] + l[1..];
    }
  }

  // ----- chains of alias facts

  type Relation = set<(string, string)>

  // Every alias fact, read both ways.
  function Links(facts: seq<AliasFact>): Relation {
    (set f | f in facts && f.claim in ALIAS_CLAIMS :: (Left(f), Right(f)))
    + (set f | f in facts && f.claim in ALIAS_CLAIMS :: (Right(f), Left(f)))
  }

  predicate Linked(r: Relation, x: string, y: string) { (x, y) in r }

  ghost predicate Symmetric(r: Relation) { forall x, y :: Linked(r, x, y) ==> Linked(r, y, x) }

  ghost predicate Walk(r: Relation, p: seq<string>, x: string, y: string) {
    p != [] && p[0] == x && p[|p| - 1] == y && forall i :: 0 <= i < |p| - 1 ==> Linked(r, p[i], p[i + 1])
  }

  ghost predicate Joined(r: Relation, x: string, y: string) { exists p :: Walk(r, p, x, y) }

  // Two names are linked exactly by a fact with one of the three claims, as subject and value, in either order.
  lemma LinkedExactly(facts: seq<AliasFact>, x: string, y: string)
    ensures Linked(Links(facts), x, y)
        <==> exists f :: f in facts && f.claim in {"alias_of", "same_as", "alias"}
                         && ((Left(f) == x && Right(f) == y) || (Left(f) == y && Right(f) == x))
  {
    hide Left, Right;
  }

  lemma LinksSymmetric(facts: seq<AliasFact>)
    ensures Symmetric(Links(facts))
  {
  }

  lemma JoinedSelf(r: Relation, x: string)
    ensures Joined(r, x, x)
  {
    assert Walk(r, [x], x, x);
  }

  lemma JoinedOn(r: Relation, x: string, y: string, z: string)
    requires Joined(r, x, y) && Linked(r, y, z)
    ensures Joined(r, x, z)
  {
    var p :| Walk(r, p, x, y);
    assert Walk(r, p + [z], x, z);
  }

  lemma {:induction false} WalkBack(r: Relation, p: seq<string>, x: string, y: string)
    requires Symmetric(r) && Walk(r, p, x, y)
    ensures Joined(r, y, x)
    decreases |p|
  {
    if |p| == 1 {
      JoinedSelf(r, x);
    } else {
      assert Walk(r, p[1..], p[1], y);
      WalkBack(r, p[1..], p[1], y);
      assert Linked(r, p[0], p[0 + 1]);
      JoinedOn(r, y, p[1], x);
    }
  }

  lemma {:induction false} WalkOn(r: Relation, x: string, y: string, q: seq<string>, z: string)
    requires Joined(r, x, y) && Walk(r, q, y, z)
    ensures Joined(r, x, z)
    decreases |q|
  {
    if |q| > 1 {
      assert Linked(r, q[0], q[0 + 1]);
      JoinedOn(r, x, y, q[1]);
      assert Walk(r, q[1..], q[1], z);
      WalkOn(r, x, q[1], q[1..], z);
    }
  }

  lemma JoinedBothWays(r: Relation, x: string, y: string)
    requires Symmetric(r) && Joined(r, x, y)
    ensures Joined(r, y, x)
  {
    var p :| Walk(r, p, x, y);
    WalkBack(r, p, x, y);
  }

  lemma JoinedThrough(r: Relation, x: string, y: string, z: string)
    requires Joined(r, x, y) && Joined(r, y, z)
    ensures Joined(r, x, z)
  {
    var q :| Walk(r, q, y, z);
    WalkOn(r, x, y, q, z);
  }

  ghost predicate Closed(r: Relation, s: set<string>) {
    forall x, y :: x in s && Linked(r, x, y) ==> y in s
  }

  lemma {:induction false} WalkStays(r: Relation, s: set<string>, p: seq<string>, x: string, y: string)
    requires Closed(r, s) && x in s && Walk(r, p, x, y)
    ensures y in s
    decreases |p|
  {
    if |p| > 1 {
      assert Linked(r, p[0], p[0 + 1]);
      assert Walk(r, p[1..], p[1], y);
      WalkStays(r, s, p[1..], p[1], y);
    }
  }

  // ----- components

  ghost predicate IsComponent(r: Relation, node: string, s: set<string>) {
    forall x :: x in s <==> Joined(r, node, x)
  }

  lemma ClosedIsComponent(r: Relation, node: string, s: set<string>)
    requires node in s && Closed(r, s) && forall x :: x in s ==> Joined(r, node, x)
    ensures IsComponent(r, node, s)
  {
    forall x | Joined(r, node, x)
      ensures x in s
    {
      var p :| Walk(r, p, node, x);
      WalkStays(r, s, p, node, x);
    }
  }

  // The adjacency sets of the relation, with an entry for every identifier in it.
  ghost predicate Represents(explicit: map<string, set<string>>, r: Relation) {
    && (forall x, y :: Linked(r, x, y) ==> x in explicit && y in explicit)
    && (forall x, y :: x in explicit ==> (y in explicit[x] <==> Linked(r, x, y)))
  }

  function Neighbours(explicit: map<string, set<string>>, x: string): set<string> {
    if x in explicit then explicit[x] else {}
  }

  function AddTo(explicit: map<string, set<string>>, x: string, y: string): map<string, set<string>> {
    explicit[x := Neighbours(explicit, x) + {y}]
  }

  lemma AddLink(explicit: map<string, set<string>>, r: Relation, x: string, y: string)
    requires Represents(explicit, r)
    ensures Represents(AddTo(AddTo(explicit, x, y), y, x), r + {(x, y), (y, x)})
  {
    var r' := r + {(x, y), (y, x)};
    forall a, b
      ensures Linked(r', a, b) <==> Linked(r, a, b) || (a == x && b == y) || (a == y && b == x)
    {
    }
    hide Linked;
  }

  lemma OneMoreLink(facts: seq<AliasFact>, i: nat)
    requires i < |facts|
    ensures Links(facts[..i + 1])
         == Links(facts[..i])
            + (if facts[i].claim in ALIAS_CLAIMS
               then {(Left(facts[i]), Right(facts[i])), (Right(facts[i]), Left(facts[i]))} else {})
  {
    assert facts[..i + 1] == facts[..i] + [facts[i]];
    hide Left, Right;
  }

  // ----- the order in which identifiers are mentioned

  function Mentions(facts: seq<AliasFact>): seq<string> {
    if facts == [] then []
    else
      var last := facts[|facts| - 1];
      Mentions(facts[..|facts| - 1]) + (if last.claim in ALIAS_CLAIMS then [Left(last), Right(last)] else [])
  }

  // x is mentioned before the b-th mention.
  ghost predicate Earlier(ms: seq<string>, x: string, b: nat) { exists a :: 0 <= a < b && a < |ms| && ms[a] == x }

  // The keys are what is mentioned, in order of first mention.
  ghost predicate InOrder(ms: seq<string>, nodes: seq<string>) {
    && (forall x :: x in nodes <==> x in ms)
    && forall i, j, b :: 0 <= i < j < |nodes| && 0 <= b < |ms| && ms[b] == nodes[j] ==> Earlier(ms, nodes[i], b)
  }

  lemma MentionOne(ms: seq<string>, nodes: seq<string>, x: string)
    requires InOrder(ms, nodes)
    ensures InOrder(ms + [x], if x in nodes then nodes else nodes + [x])
  {
    var ms', nodes' := ms + [x], if x in nodes then nodes else nodes + [x];
    forall i, j, b | 0 <= i < j < |nodes'| && 0 <= b < |ms'| && ms'[b] == nodes'[j]
      ensures Earlier(ms', nodes'[i], b)
    {
      assert nodes'[i] in nodes && nodes'[i] in ms;
      if b < |ms| {
        assert nodes'[j] in ms && nodes'[j] in nodes;
        MentionedBefore(ms, x, nodes'[i], b);
      } else {
        var a :| 0 <= a < |ms| && ms[a] == nodes'[i];
        assert ms'[a] == nodes'[i];
      }
    }
  }

  lemma MentionedBefore(ms: seq<string>, x: string, y: string, b: nat)
    ensures Earlier(ms, y, b) ==> Earlier(ms + [x], y, b)
  {
    if Earlier(ms, y, b) {
      var a :| 0 <= a < b && a < |ms| && ms[a] == y;
      assert (ms + [x])[a] == y;
    }
  }

  lemma OneMoreMention(facts: seq<AliasFact>, i: nat)
    requires i < |facts|
    ensures Mentions(facts[..i + 1])
         == Mentions(facts[..i]) + (if facts[i].claim in ALIAS_CLAIMS then [Left(facts[i]), Right(facts[i])] else [])
  {
    assert facts[..i + 1][..i] == facts[..i];
  }

  // A dict of neighbour sets, and its keys in insertion order.
  method BuildExplicit(facts: seq<AliasFact>) returns (nodes: seq<string>, explicit: map<string, set<string>>)
    ensures Represents(explicit, Links(facts))
    ensures forall x :: x in nodes <==> x in explicit
    ensures InOrder(Mentions(facts), nodes)
  {
    hide Links, Represents, Left, Right, AddTo, InOrder, Mentions;
    NothingMentioned();
    nodes, explicit := [], map[];
    NoLinks();
    for i := 0 to |facts|
      invariant Represents(explicit, Links(facts[..i]))
      invariant forall x :: x in nodes <==> x in explicit
      invariant InOrder(Mentions(facts[..i]), nodes)
    {
      OneMoreLink(facts, i);
      OneMoreMention(facts, i);
      var fact := facts[i];
      if fact.claim in ALIAS_CLAIMS {
        var left, right := Left(fact), Right(fact);
        AddLink(explicit, Links(facts[..i]), left, right);
        MentionOne(Mentions(facts[..i]), nodes, left);
        if left !in explicit {
          nodes := nodes + [left];
        }
        AddedKey(explicit, left, right);
        explicit := AddTo(explicit, left, right);
        MentionOne(Mentions(facts[..i]) + [left], nodes, right);
        assert Mentions(facts[..i]) + [left] + [right] == Mentions(facts[..i]) + [left, right];
        if right !in explicit {
          nodes := nodes + [right];
        }
        AddedKey(explicit, right, left);
        explicit := AddTo(explicit, right, left);
      } else {
        assert Links(facts[..i + 1]) == Links(facts[..i]);
        assert Mentions(facts[..i]) + [] == Mentions(facts[..i]);
      }
    }
    assert facts[..|facts|] == facts;
  }

  lemma NothingMentioned()
    ensures InOrder(Mentions([]), [])
  {
  }

  lemma NoLinks()
    ensures Represents(map[], Links([]))
  {
  }

  lemma AddedKey(explicit: map<string, set<string>>, x: string, y: string)
    ensures forall a :: a in AddTo(explicit, x, y) <==> a in explicit || a == x
  {
  }

  // ----- one component

  // What the stack search keeps: visited is what it started from and the component so far; the component and the
  // stack hold only identifiers joined to the node, and no link leaves the component but onto the stack.
  ghost predicate Searching(r: Relation, node: string, start: set<string>, visited: set<string>, component: set<string>,
                            stack: seq<string>)
  {
    && visited == start + component && start !! component
    && (forall x :: x in component || x in stack ==> Joined(r, node, x))
    && (forall x, y :: x in component && Linked(r, x, y) ==> y in component || y in stack)
    && (node in component || node in stack)
  }

  lemma SearchStarts(r: Relation, node: string, start: set<string>)
    ensures Searching(r, node, start, start, {}, [node])
  {
    JoinedSelf(r, node);
    hide Joined, Linked;
  }

  // An identifier already visited is dropped: it belongs to this component, as the start is closed.
  lemma SkipStep(r: Relation, node: string, start: set<string>, visited: set<string>, component: set<string>, stack: seq<string>)
    requires Searching(r, node, start, visited, component, stack) && stack != [] && stack[|stack| - 1] in visited
    requires Symmetric(r) && Closed(r, start) && node !in start
    ensures Searching(r, node, start, visited, component, stack[..|stack| - 1])
  {
    var rest, current := stack[..|stack| - 1], stack[|stack| - 1];
    assert forall x :: x in stack <==> x in rest || x == current;
    JoinedOutside(r, start, node, current);
    hide Joined, Linked;
  }

  lemma JoinedOutside(r: Relation, start: set<string>, node: string, x: string)
    requires Symmetric(r) && Closed(r, start) && node !in start && Joined(r, node, x)
    ensures x !in start
  {
    if x in start {
      JoinedBothWays(r, node, x);
      var p :| Walk(r, p, x, node);
      WalkStays(r, start, p, x, node);
    }
  }

  lemma VisitStep(r: Relation, node: string, start: set<string>, visited: set<string>, component: set<string>,
                  stack: seq<string>, next: seq<string>)
    requires Searching(r, node, start, visited, component, stack) && stack != [] && stack[|stack| - 1] !in visited
    requires forall y :: y in next <==> Linked(r, stack[|stack| - 1], y)
    ensures Searching(r, node, start, visited + {stack[|stack| - 1]}, component + {stack[|stack| - 1]},
                      stack[..|stack| - 1] + next)
  {
    var rest, current := stack[..|stack| - 1], stack[|stack| - 1];
    assert forall x :: x in stack <==> x in rest || x == current;
    forall y | Linked(r, current, y)
      ensures Joined(r, node, y)
    {
      JoinedOn(r, node, current, y);
    }
    hide Joined, Linked;
  }

  lemma SearchEnds(r: Relation, node: string, start: set<string>, visited: set<string>, component: set<string>)
    requires Searching(r, node, start, visited, component, []) && Closed(r, start)
    ensures IsComponent(r, node, component) && Closed(r, visited) && node in component
  {
    hide Joined;
    ClosedIsComponent(r, node, component);
  }

  // Elements of a set, in some order.
  method Listed(s: set<string>) returns (l: seq<string>)
    ensures (forall x :: x in l <==> x in s) && multiset(l) == multiset(s)
  {
    l := [];
    var rest := s;
    while rest != {}
      invariant rest <= s && (forall x :: x in l <==> x in s - rest) && multiset(l) == multiset(s - rest)
      decreases |rest|
    {
      var x :| x in rest;
      assert s - (rest - {x}) == s - rest + {x};
      l, rest := l + [x], rest - {x};
    }
    assert s - rest == s;
  }

  method Component(explicit: map<string, set<string>>, ghost r: Relation, node: string, start: set<string>)
    returns (component: set<string>, visited: set<string>)
    requires Represents(explicit, r) && Symmetric(r) && node in explicit
    requires Closed(r, start) && node !in start && start <= explicit.Keys
    ensures IsComponent(r, node, component) && node in component && component !! start
    ensures visited == start + component && Closed(r, visited) && visited <= explicit.Keys
  {
    hide Represents, Searching, IsComponent, Closed, Symmetric;
    var stack := [node];
    component, visited := {}, start;
    SearchStarts(r, node, start);
    while stack != []
      invariant Searching(r, node, start, visited, component, stack)
      invariant visited <= explicit.Keys && forall x :: x in stack ==> x in explicit
      decreases |explicit.Keys - visited|, |stack|
    {
      var current := stack[|stack| - 1];
      if current in visited {
        SkipStep(r, node, start, visited, component, stack);
        stack := stack[..|stack| - 1];
        continue;
      }
      var next := Listed(Neighbours(explicit, current));
      NeighboursExactly(explicit, r, current);
      VisitStep(r, node, start, visited, component, stack, next);
      OneFewer(explicit.Keys, visited, current);
      visited := visited + {current};
      component := component + {current};
      stack := stack[..|stack| - 1] + next;
    }
    SearchEnds(r, node, start, visited, component);
    SearchSplits(r, node, start, visited, component);
  }

  lemma SearchSplits(r: Relation, node: string, start: set<string>, visited: set<string>, component: set<string>)
    requires Searching(r, node, start, visited, component, [])
    ensures visited == start + component && component !! start
  {
  }

  lemma NeighboursExactly(explicit: map<string, set<string>>, r: Relation, x: string)
    requires Represents(explicit, r)
    ensures forall y :: y in Neighbours(explicit, x) <==> Linked(r, x, y)
    ensures Neighbours(explicit, x) <= explicit.Keys
  {
    hide Linked;
  }

  lemma OneFewer(all: set<string>, visited: set<string>, x: string)
    requires x in all && x !in visited
    ensures |all - (visited + {x})| < |all - visited|
  {
    assert all - (visited + {x}) == all - visited - {x};
  }

  // ----- the groups

  // A group lists a component of at least two identifiers in code-point order.
  ghost predicate IsGroup(r: Relation, g: seq<string>) {
    && |g| >= 2 && Sorted(ByCodePoint(), g) && multiset(g) == multiset(Elements(g))
    && IsComponent(r, g[0], Elements(g))
  }

  function Elements(g: seq<string>): set<string> { set x | x in g }

  ghost predicate Share(groups: seq<seq<string>>, x: string, y: string) {
    exists g :: g in groups && x in g && y in g
  }

  // The groups found while only the identifiers in visited have been looked at.
  ghost predicate GroupsSoFar(r: Relation, groups: seq<seq<string>>, visited: set<string>) {
    && (forall g :: g in groups ==> IsGroup(r, g) && Elements(g) <= visited)
    && (forall i, j :: 0 <= i < j < |groups| ==> Elements(groups[i]) !! Elements(groups[j]))
    && (forall x, y :: x in visited && x != y && Joined(r, x, y) ==> Share(groups, x, y))
  }

  lemma ComponentElsewhere(r: Relation, node: string, other: string, s: set<string>)
    requires Symmetric(r) && IsComponent(r, node, s) && other in s
    ensures IsComponent(r, other, s)
  {
    hide Joined;
    forall x
      ensures Joined(r, node, x) <==> Joined(r, other, x)
    {
      if Joined(r, node, x) {
        JoinedBothWays(r, node, other);
        JoinedThrough(r, other, node, x);
      }
      if Joined(r, other, x) {
        JoinedThrough(r, node, other, x);
      }
    }
  }

  method SortedGroup(component: set<string>) returns (g: seq<string>)
    ensures Elements(g) == component && Sorted(ByCodePoint(), g) && multiset(g) == multiset(component)
  {
    var l := Listed(component);
    g := Sort(ByCodePoint(), l);
    CodePointOrder();
    SortPermutes(ByCodePoint(), l);
    SortSorts(ByCodePoint(), l);
    SameElements(g, l);
  }

  lemma GroupOfComponent(r: Relation, node: string, component: set<string>, g: seq<string>)
    requires Symmetric(r) && IsComponent(r, node, component) && |component| > 1
    requires Elements(g) == component && Sorted(ByCodePoint(), g) && multiset(g) == multiset(component)
    ensures IsGroup(r, g)
  {
    assert |g| == |multiset(g)| == |component|;
    assert g[0] in Elements(g);
    hide IsComponent;
    ComponentElsewhere(r, node, g[0], component);
  }

  lemma AddGroup(r: Relation, groups: seq<seq<string>>, visited: set<string>, component: set<string>, g: seq<string>)
    requires GroupsSoFar(r, groups, visited) && component !! visited
    requires IsGroup(r, g) && Elements(g) == component
    ensures GroupsSoFar(r, groups + [g], visited + component)
  {
    forall x, y | x in visited + component && x != y && Joined(r, x, y)
      ensures Share(groups + [g], x, y)
    {
      if x in component {
        InOneGroup(r, g, x, y);
        assert g in groups + [g];
      }
    }
    hide IsGroup, Joined, Share;
  }

  lemma InOneGroup(r: Relation, g: seq<string>, x: string, y: string)
    requires IsGroup(r, g) && x in g && Joined(r, x, y)
    ensures y in g
  {
    assert x in Elements(g);
    JoinedThrough(r, g[0], x, y);
    hide Joined;
    assert y in Elements(g);
  }

  // A component of one identifier joins it to nothing else.
  lemma SkipSingleton(r: Relation, groups: seq<seq<string>>, visited: set<string>, node: string, component: set<string>)
    requires GroupsSoFar(r, groups, visited) && IsComponent(r, node, component) && node in component && |component| <= 1
    ensures GroupsSoFar(r, groups, visited + component)
  {
    forall x | x in component
      ensures x == node
    {
      OnlyOne(component, node, x);
    }
    hide IsGroup, Joined, Share;
  }

  lemma OnlyOne(s: set<string>, a: string, b: string)
    requires |s| <= 1 && a in s && b in s
    ensures a == b
  {
    var rest := s - {a};
    assert |rest| == |s| - 1;
    assert b == a || b in rest;
  }

  // Groups come in the order in which their first members are mentioned.
  ghost predicate GroupsInOrder(ms: seq<string>, groups: seq<seq<string>>) {
    forall i, j, b :: 0 <= i < j < |groups| && 0 <= b < |ms| && ms[b] in groups[j] ==> SomeEarlier(ms, groups[i], b)
  }

  ghost predicate SomeEarlier(ms: seq<string>, g: seq<string>, b: nat) { exists x :: x in g && Earlier(ms, x, b) }

  // Where among the keys each group was met.
  ghost predicate Met(nodes: seq<string>, groups: seq<seq<string>>, at: seq<nat>, n: nat) {
    && |at| == |groups| && n <= |nodes|
    && (forall k :: 0 <= k < |at| ==> at[k] < n && nodes[at[k]] in groups[k])
    && (forall k, q :: 0 <= k < |at| && 0 <= q < at[k] ==> nodes[q] !in groups[k])
    && forall k, l :: 0 <= k < l < |at| ==> at[k] < at[l]
  }

  lemma MeetGroup(nodes: seq<string>, groups: seq<seq<string>>, at: seq<nat>, n: nat, g: seq<string>)
    requires Met(nodes, groups, at, n) && n < |nodes| && nodes[n] in g && forall q :: 0 <= q < n ==> nodes[q] !in g
    ensures Met(nodes, groups + [g], at + [n], n + 1)
  {
  }

  lemma MeetNone(nodes: seq<string>, groups: seq<seq<string>>, at: seq<nat>, n: nat)
    requires Met(nodes, groups, at, n) && n < |nodes|
    ensures Met(nodes, groups, at, n + 1)
  {
  }

  lemma MetInOrder(ms: seq<string>, nodes: seq<string>, groups: seq<seq<string>>, at: seq<nat>)
    requires InOrder(ms, nodes) && Met(nodes, groups, at, |nodes|)
    ensures GroupsInOrder(ms, groups)
  {
    hide Earlier;
    forall i, j, b | 0 <= i < j < |groups| && 0 <= b < |ms| && ms[b] in groups[j]
      ensures SomeEarlier(ms, groups[i], b)
    {
      assert ms[b] in ms && ms[b] in nodes;
      var q :| 0 <= q < |nodes| && nodes[q] == ms[b];
      assert at[i] < at[j] <= q;
      assert Earlier(ms, nodes[at[i]], b);
    }
  }

  method DetectExplicitAliases(facts: seq<AliasFact>) returns (groups: seq<seq<string>>)
    ensures forall g :: g in groups ==> IsGroup(Links(facts), g)
    ensures forall i, j :: 0 <= i < j < |groups| ==> Elements(groups[i]) !! Elements(groups[j])
    // Two identifiers share a group exactly when a chain of alias facts joins them.
    ensures forall x, y :: x != y ==> (Share(groups, x, y) <==> Joined(Links(facts), x, y))
    ensures GroupsInOrder(Mentions(facts), groups)
  {
    hide Represents, IsGroup, Joined, Share, Links, IsComponent, Closed, GroupsSoFar, InOrder, Mentions, GroupsInOrder, Met;
    groups := [];
    ghost var at: seq<nat> := [];
    ghost var r := Links(facts);
    LinksSymmetric(facts);
    var nodes, explicit := BuildExplicit(facts);
    var visited: set<string> := {};
    NoGroups(r);
    MetNothing(nodes);
    for i := 0 to |nodes|
      invariant GroupsSoFar(r, groups, visited) && Closed(r, visited) && visited <= explicit.Keys
      invariant forall j :: 0 <= j < i ==> nodes[j] in visited
      invariant Met(nodes, groups, at, i)
    {
      var node := nodes[i];
      if node in visited {
        MeetNone(nodes, groups, at, i);
        continue;
      }
      var component, now := Component(explicit, r, node, visited);
      if |component| > 1 {
        var g := SortedGroup(component);
        GroupOfComponent(r, node, component, g);
        AddGroup(r, groups, visited, component, g);
        ElementsAreMembers(g);
        MeetGroup(nodes, groups, at, i, g);
        groups, at := groups + [g], at + [i];
      } else {
        MeetNone(nodes, groups, at, i);
        SkipSingleton(r, groups, visited, node, component);
      }
      visited := now;
    }
    AllVisited(explicit, r, groups, visited);
    MetInOrder(Mentions(facts), nodes, groups, at);
  }

  lemma ElementsAreMembers(g: seq<string>)
    ensures forall x :: x in Elements(g) <==> x in g
  {
  }

  lemma MetNothing(nodes: seq<string>)
    ensures Met(nodes, [], [], 0)
  {
  }

  lemma NoGroups(r: Relation)
    ensures GroupsSoFar(r, [], {}) && Closed(r, {})
  {
    hide Joined;
  }

  lemma AllVisited(explicit: map<string, set<string>>, r: Relation, groups: seq<seq<string>>, visited: set<string>)
    requires Represents(explicit, r) && Symmetric(r) && GroupsSoFar(r, groups, visited)
    requires forall x :: x in explicit ==> x in visited
    ensures forall g :: g in groups ==> IsGroup(r, g)
    ensures forall i, j :: 0 <= i < j < |groups| ==> Elements(groups[i]) !! Elements(groups[j])
    ensures forall x, y :: x != y ==> (Share(groups, x, y) <==> Joined(r, x, y))
  {
    forall x, y | x != y
      ensures Share(groups, x, y) <==> Joined(r, x, y)
    {
      if Joined(r, x, y) {
        JoinedIsNode(explicit, r, x, y);
      }
      if Share(groups, x, y) {
        var g :| g in groups && x in g && y in g;
        SharersAreJoined(r, g, x, y);
      }
    }
    hide IsGroup, Share, Joined;
  }

  lemma JoinedIsNode(explicit: map<string, set<string>>, r: Relation, x: string, y: string)
    requires Represents(explicit, r) && x != y && Joined(r, x, y)
    ensures x in explicit
  {
    var p :| Walk(r, p, x, y);
    assert Linked(r, p[0], p[0 + 1]);
  }

  lemma SharersAreJoined(r: Relation, g: seq<string>, x: string, y: string)
    requires Symmetric(r) && IsGroup(r, g) && x in g && y in g
    ensures Joined(r, x, y)
  {
    hide Joined;
    assert x in Elements(g) && y in Elements(g);
    JoinedBothWays(r, g[0], x);
    JoinedThrough(r, x, g[0], y);
  }

  // A group is determined by any of its members, so the order in which the stack is filled is of no consequence.
  lemma GroupIsUnique(r: Relation, g: seq<string>, h: seq<string>, x: string)
    requires Symmetric(r) && IsGroup(r, g) && IsGroup(r, h) && x in g && x in h
    ensures g == h
  {
    hide Joined;
    assert x in Elements(g) && x in Elements(h);
    ComponentElsewhere(r, g[0], x, Elements(g));
    ComponentElsewhere(r, h[0], x, Elements(h));
    assert Elements(g) == Elements(h);
    CodePointOrder();
    CodePointNoTies(g);
    SortedUnique(ByCodePoint(), g, h);
  }

  // Joining is an equivalence on identifiers.
  lemma JoinedIsEquivalence(r: Relation, x: string, y: string, z: string)
    requires Symmetric(r)
    ensures Joined(r, x, x) && (Joined(r, x, y) ==> Joined(r, y, x))
    ensures Joined(r, x, y) && Joined(r, y, z) ==> Joined(r, x, z)
  {
    hide Joined;
    JoinedSelf(r, x);
    if Joined(r, x, y) {
      JoinedBothWays(r, x, y);
      if Joined(r, y, z) {
        JoinedThrough(r, x, y, z);
      }
    }
  }
}
