/** What the order of children can change: which refusal a tree reports, and exactly when. */
module AuthOrder {
  import opened Wrappers
  import opened AuthSyntax
  import opened AuthEval

  // The same tree with its children permuted, at every level.
  ghost predicate Rearranged(a: AuthExpr, b: AuthExpr) {
    match a
    case Atom(_, _) => a == b
    case And(cs) => b.And? && exists ms :: multiset(ms) == multiset(cs) && Pairwise(cs, ms, b.children)
    case Or(cs) => b.Or? && exists ms :: multiset(ms) == multiset(cs) && Pairwise(cs, ms, b.children)
  }

  ghost predicate Pairwise(cs: seq<AuthExpr>, ms: seq<AuthExpr>, ds: seq<AuthExpr>) {
    |ms| == |ds| && forall i :: 0 <= i < |ms| ==> ms[i] in cs && Rearranged(ms[i], ds[i])
  }

  lemma {:induction false} RearrangedSelf(a: AuthExpr)
    ensures Rearranged(a, a)
  {
    if !a.Atom? {
      forall i | 0 <= i < |a.children|
        ensures Rearranged(a.children[i], a.children[i])
      {
        RearrangedSelf(a.children[i]);
      }
      assert Pairwise(a.children, a.children, a.children);
    }
  }

  lemma SameMembers(ms: seq<AuthExpr>, cs: seq<AuthExpr>)
    requires multiset(ms) == multiset(cs)
    ensures forall c :: c in ms <==> c in cs
  {
    forall c
      ensures c in ms <==> c in cs
    {
      assert c in ms <==> c in multiset(ms);
      assert c in cs <==> c in multiset(cs);
    }
  }

  lemma Middle(a: AuthExpr, b: AuthExpr) returns (ms: seq<AuthExpr>)
    requires !a.Atom? && Rearranged(a, b)
    ensures a.And? == b.And? && !b.Atom? && multiset(ms) == multiset(a.children) && Pairwise(a.children, ms, b.children)
  {
    ms :| multiset(ms) == multiset(a.children) && Pairwise(a.children, ms, b.children);
  }

  lemma {:induction false} RearrangedIsReordered(a: AuthExpr, b: AuthExpr)
    requires Rearranged(a, b)
    ensures Reordered(a, b)
    decreases a
  {
    if !a.Atom? {
      var cs, ds := a.children, b.children;
      var ms := Middle(a, b);
      SameMembers(ms, cs);
      forall i | 0 <= i < |ms|
        ensures Reordered(ms[i], ds[i])
      {
        RearrangedIsReordered(ms[i], ds[i]);
      }
      MatchedFromPairs(a, ms, ds);
    }
  }

  lemma MatchedFromPairs(owner: AuthExpr, ms: seq<AuthExpr>, ds: seq<AuthExpr>)
    requires !owner.Atom? && |ms| == |ds| && forall c :: c in ms <==> c in owner.children
    requires forall i :: 0 <= i < |ms| ==> Reordered(ms[i], ds[i])
    ensures Matched(owner, owner.children, ds)
  {
    hide Reordered;
    var cs := owner.children;
    forall c | c in cs
      ensures HasImage(c, ds)
    {
      var i :| 0 <= i < |ms| && ms[i] == c;
      assert ds[i] in ds;
    }
    forall d | d in ds
      ensures HasOrigin(owner, cs, d)
    {
      var i :| 0 <= i < |ds| && ds[i] == d;
      assert ms[i] in cs;
    }
  }

  // ----- the decisions a tree's rearrangements can report

  type AtomDecisions = (AtomKind, string) -> AuthDecision

  ghost function DecisionsOf(actor: ActorDefinition, view: ActorView, clock: Clock): AtomDecisions {
    (kind, value) => EvalAtom(kind, value, actor, view, clock).decision
  }

  ghost function Options(node: AuthExpr, atoms: AtomDecisions): set<AuthDecision>
    decreases node, 0
  {
    match node
    case Atom(kind, value) => {atoms(kind, value)}
    case And(cs) =>
      if EachCan(cs, Allow, atoms) then {Allow}
      else OnlyIf(SomeCan(cs, Deny, atoms), Deny) + OnlyIf(SomeCan(cs, Indeterminate, atoms), Indeterminate)
    case Or(cs) =>
      if SomeCan(cs, Allow, atoms) then {Allow}
      else OnlyIf(EachCan(cs, Deny, atoms), Deny) + OnlyIf(SomeCan(cs, Indeterminate, atoms), Indeterminate)
  }

  ghost predicate Can(c: AuthExpr, d: AuthDecision, atoms: AtomDecisions)
    decreases c, 1
  {
    d in Options(c, atoms)
  }

  ghost predicate SomeCan(cs: seq<AuthExpr>, d: AuthDecision, atoms: AtomDecisions)
    decreases cs, 0
  {
    exists c :: c in cs && Can(c, d, atoms)
  }

  ghost predicate EachCan(cs: seq<AuthExpr>, d: AuthDecision, atoms: AtomDecisions)
    decreases cs, 0
  {
    forall c :: c in cs ==> Can(c, d, atoms)
  }

  function OnlyIf(possible: bool, d: AuthDecision): set<AuthDecision> { if possible then {d} else {} }

  // There is always an option, and a tree that can allow can do nothing else.
  lemma {:induction false} OptionsShape(node: AuthExpr, atoms: AtomDecisions)
    ensures Can(node, Allow, atoms) || Can(node, Deny, atoms) || Can(node, Indeterminate, atoms)
    ensures Can(node, Allow, atoms) ==> Options(node, atoms) == {Allow}
    decreases node
  {
    if !node.Atom? {
      forall c | c in node.children
        ensures Can(c, Allow, atoms) || Can(c, Deny, atoms) || Can(c, Indeterminate, atoms)
      {
        OptionsShape(c, atoms);
      }
      ShapeFromChildren(node, atoms);
    } else {
      var d := atoms(node.kind, node.value);
      assert Options(node, atoms) == {d} && (d == Allow || d == Deny || d == Indeterminate);
    }
  }

  lemma ShapeFromChildren(node: AuthExpr, atoms: AtomDecisions)
    requires !node.Atom?
    requires forall c :: c in node.children ==> Can(c, Allow, atoms) || Can(c, Deny, atoms) || Can(c, Indeterminate, atoms)
    ensures Can(node, Allow, atoms) || Can(node, Deny, atoms) || Can(node, Indeterminate, atoms)
    ensures Can(node, Allow, atoms) ==> Options(node, atoms) == {Allow}
  {
    var cs := node.children;
    assert EachCan(cs, Allow, atoms) || SomeCan(cs, Deny, atoms) || SomeCan(cs, Indeterminate, atoms) by {
      hide Can;
    }
    assert SomeCan(cs, Allow, atoms) || EachCan(cs, Deny, atoms) || SomeCan(cs, Indeterminate, atoms) by {
      hide Can;
    }
    hide SomeCan, EachCan;
  }

  // What is reported is an option.
  lemma {:induction false} ReportIsOption(node: AuthExpr, actor: ActorDefinition, view: ActorView, clock: Clock)
    ensures EvalAuth(node, actor, view, clock).decision in Options(node, DecisionsOf(actor, view, clock))
    decreases node
  {
    var atoms := DecisionsOf(actor, view, clock);
    if !node.Atom? {
      var cs := node.children;
      forall c | c in cs
        ensures forall d :: Reports(c, d, actor, view, clock) ==> Can(c, d, atoms)
        ensures Can(c, Allow, atoms) ==> Reports(c, Allow, actor, view, clock)
      {
        ReportIsOption(c, actor, view, clock);
        OptionsShape(c, atoms);
      }
      ReportFromChildren(node, actor, view, clock);
    } else {
      assert EvalAuth(node, actor, view, clock) == EvalAtom(node.kind, node.value, actor, view, clock);
      assert Options(node, atoms) == {atoms(node.kind, node.value)};
    }
  }

  lemma ReportFromChildren(node: AuthExpr, actor: ActorDefinition, view: ActorView, clock: Clock)
    requires !node.Atom?
    requires forall c, d :: c in node.children && Reports(c, d, actor, view, clock) ==> Can(c, d, DecisionsOf(actor, view, clock))
    requires forall c :: c in node.children && Can(c, Allow, DecisionsOf(actor, view, clock)) ==>
      Reports(c, Allow, actor, view, clock)
    ensures EvalAuth(node, actor, view, clock).decision in Options(node, DecisionsOf(actor, view, clock))
  {
    var cs, atoms := node.children, DecisionsOf(actor, view, clock);
    assert forall c :: c in cs ==> Reports(c, Allow, actor, view, clock) || Reports(c, Deny, actor, view, clock)
                                   || Reports(c, Indeterminate, actor, view, clock);
    forall d
      ensures SomeReports(cs, d, actor, view, clock) ==> SomeCan(cs, d, atoms)
    {
    }
    assert SomeCan(cs, Allow, atoms) ==> SomeReports(cs, Allow, actor, view, clock);
    assert EachCan(cs, Allow, atoms) ==> forall c :: c in cs ==> Reports(c, Allow, actor, view, clock);
    if node.And? {
      ConjunctsReport(cs, actor, view, clock);
    } else {
      DisjunctsReport(cs, false, actor, view, clock);
    }
    hide EvalAtom, EvalConjuncts, EvalDisjuncts, Can, DecisionsOf;
  }

  ghost predicate Reports(c: AuthExpr, d: AuthDecision, actor: ActorDefinition, view: ActorView, clock: Clock) {
    EvalAuth(c, actor, view, clock).decision == d
  }

  ghost predicate SomeReports(cs: seq<AuthExpr>, d: AuthDecision, actor: ActorDefinition, view: ActorView, clock: Clock) {
    exists c :: c in cs && Reports(c, d, actor, view, clock)
  }

  lemma SomeReportsFirst(cs: seq<AuthExpr>, d: AuthDecision, actor: ActorDefinition, view: ActorView, clock: Clock)
    requires cs != []
    ensures SomeReports(cs, d, actor, view, clock)
        <==> Reports(cs[0], d, actor, view, clock) || SomeReports(cs[1..], d, actor, view, clock)
  {
    hide Reports;
    assert forall c :: c in cs <==> c == cs[0] || c in cs[1..];
  }

  // A conjunction with a refusing child reports what some refusing child reports: the first, if that refuses.
  lemma {:induction false} ConjunctsReport(cs: seq<AuthExpr>, actor: ActorDefinition, view: ActorView, clock: Clock)
    ensures var d := EvalConjuncts(cs, actor, view, clock).decision;
      if d == Allow then !SomeReports(cs, Deny, actor, view, clock) && !SomeReports(cs, Indeterminate, actor, view, clock)
      else SomeReports(cs, d, actor, view, clock)
    ensures cs != [] && !Reports(cs[0], Allow, actor, view, clock) ==>
      Reports(cs[0], EvalConjuncts(cs, actor, view, clock).decision, actor, view, clock)
  {
    hide EvalAuth, SomeReports;
    if cs == [] {
      NoneReports(Deny, actor, view, clock);
      NoneReports(Indeterminate, actor, view, clock);
    } else {
      ConjunctsReport(cs[1..], actor, view, clock);
      SomeReportsFirst(cs, Deny, actor, view, clock);
      SomeReportsFirst(cs, Indeterminate, actor, view, clock);
    }
  }

  lemma NoneReports(d: AuthDecision, actor: ActorDefinition, view: ActorView, clock: Clock)
    ensures !SomeReports([], d, actor, view, clock)
  {
  }

  // A disjunction allows when some child does, and is otherwise undecided when some child is.
  lemma {:induction false} DisjunctsReport(cs: seq<AuthExpr>, saw: bool, actor: ActorDefinition, view: ActorView, clock: Clock)
    ensures var undecided := saw || SomeReports(cs, Indeterminate, actor, view, clock);
      EvalDisjuncts(cs, saw, actor, view, clock).decision
      == if SomeReports(cs, Allow, actor, view, clock) then Allow else if undecided then Indeterminate else Deny
  {
    hide EvalAuth, SomeReports;
    if cs == [] {
      NoneReports(Allow, actor, view, clock);
      NoneReports(Indeterminate, actor, view, clock);
    } else {
      DisjunctsReport(cs[1..], saw || EvalAuth(cs[0], actor, view, clock).decision == Indeterminate, actor, view, clock);
      SomeReportsFirst(cs, Allow, actor, view, clock);
      SomeReportsFirst(cs, Indeterminate, actor, view, clock);
    }
  }

  // A child with the same options.
  ghost predicate HasTwin(c: AuthExpr, es: seq<AuthExpr>, atoms: AtomDecisions) {
    exists e :: e in es && Options(c, atoms) == Options(e, atoms)
  }

  lemma Twin(c: AuthExpr, es: seq<AuthExpr>, atoms: AtomDecisions) returns (e: AuthExpr)
    requires HasTwin(c, es, atoms)
    ensures e in es && forall d :: Can(c, d, atoms) == Can(e, d, atoms)
  {
    e :| e in es && Options(c, atoms) == Options(e, atoms);
  }

  lemma TwinsCan(cs: seq<AuthExpr>, es: seq<AuthExpr>, d: AuthDecision, atoms: AtomDecisions)
    requires forall c :: c in cs ==> HasTwin(c, es, atoms)
    ensures SomeCan(cs, d, atoms) ==> SomeCan(es, d, atoms)
    ensures EachCan(es, d, atoms) ==> EachCan(cs, d, atoms)
  {
    hide HasTwin, Can;
    forall c | c in cs
      ensures Can(c, d, atoms) ==> SomeCan(es, d, atoms)
      ensures EachCan(es, d, atoms) ==> Can(c, d, atoms)
    {
      var e := Twin(c, es, atoms);
    }
  }

  // Reordering changes no option.
  lemma {:induction false} OptionsIgnoreOrder(a: AuthExpr, b: AuthExpr, atoms: AtomDecisions)
    requires Reordered(a, b)
    ensures Options(a, atoms) == Options(b, atoms)
    decreases a
  {
    hide HasImage, HasOrigin, Can, SomeCan, EachCan;
    if !a.Atom? {
      var cs, es := a.children, b.children;
      assert Matched(a, cs, es) && !b.Atom? && a.And? == b.And?;
      forall c | c in cs
        ensures HasTwin(c, es, atoms)
      {
        var e := Image(c, es);
        OptionsIgnoreOrder(c, e, atoms);
      }
      forall e | e in es
        ensures HasTwin(e, cs, atoms)
      {
        var c := Origin(a, cs, e);
        OptionsIgnoreOrder(c, e, atoms);
      }
      TwinsCombine(a, b, atoms);
    }
  }

  lemma TwinsCombine(a: AuthExpr, b: AuthExpr, atoms: AtomDecisions)
    requires !a.Atom? && !b.Atom? && a.And? == b.And?
    requires forall c :: c in a.children ==> HasTwin(c, b.children, atoms)
    requires forall e :: e in b.children ==> HasTwin(e, a.children, atoms)
    ensures Options(a, atoms) == Options(b, atoms)
  {
    hide HasTwin, SomeCan, EachCan;
    forall d
      ensures SomeCan(a.children, d, atoms) == SomeCan(b.children, d, atoms)
      ensures EachCan(a.children, d, atoms) == EachCan(b.children, d, atoms)
    {
      TwinsCan(a.children, b.children, d, atoms);
      TwinsCan(b.children, a.children, d, atoms);
    }
  }

  // ----- every option is reported by some rearrangement

  lemma {:induction false} Attained(node: AuthExpr, d: AuthDecision, actor: ActorDefinition, view: ActorView, clock: Clock)
    returns (b: AuthExpr)
    requires Can(node, d, DecisionsOf(actor, view, clock))
    ensures Rearranged(node, b) && Reports(b, d, actor, view, clock)
    decreases node, 1
  {
    var atoms := DecisionsOf(actor, view, clock);
    if node.Atom? || d == Allow {
      b := node;
      RearrangedSelf(node);
      ReportIsOption(node, actor, view, clock);
      OptionsShape(node, atoms);
    } else if node.Or? && d == Deny {
      OptionsShape(node, atoms);
      var ds := AllAttained(node.children, actor, view, clock);
      b := Or(ds);
      assert Pairwise(node.children, node.children, ds);
      DeniedByAll(ds, actor, view, clock);
    } else {
      OptionsShape(node, atoms);
      var c := Capable(node, d, atoms);
      var c' := Attained(c, d, actor, view, clock);
      b := Leading(node, c, c');
      LeadingReports(node, c, c', b, d, actor, view, clock);
    }
  }

  lemma {:induction false} AllAttained(cs: seq<AuthExpr>, actor: ActorDefinition, view: ActorView, clock: Clock)
    returns (ds: seq<AuthExpr>)
    requires EachCan(cs, Deny, DecisionsOf(actor, view, clock))
    ensures |ds| == |cs| && forall i :: 0 <= i < |cs| ==> Rearranged(cs[i], ds[i]) && Reports(ds[i], Deny, actor, view, clock)
    decreases cs, 0
  {
    ds := [];
    if cs != [] {
      var first := Attained(cs[0], Deny, actor, view, clock);
      var rest := AllAttained(cs[1..], actor, view, clock);
      ds := [first] + rest;
    }
  }

  lemma DeniedByAll(ds: seq<AuthExpr>, actor: ActorDefinition, view: ActorView, clock: Clock)
    requires forall i :: 0 <= i < |ds| ==> Reports(ds[i], Deny, actor, view, clock)
    ensures Reports(Or(ds), Deny, actor, view, clock)
  {
    DisjunctsReport(ds, false, actor, view, clock);
    hide EvalDisjuncts;
  }

  // A child that accounts for the option.
  lemma Capable(node: AuthExpr, d: AuthDecision, atoms: AtomDecisions) returns (c: AuthExpr)
    requires !node.Atom? && Can(node, d, atoms) && d != Allow && (node.And? || d == Indeterminate)
    ensures c in node.children && Can(c, d, atoms)
  {
    assert SomeCan(node.children, d, atoms) by {
      hide SomeCan, EachCan;
    }
    c :| c in node.children && Can(c, d, atoms);
  }

  // The node with the child in front, itself rearranged.
  lemma Leading(node: AuthExpr, c: AuthExpr, c': AuthExpr) returns (b: AuthExpr)
    requires !node.Atom? && c in node.children && Rearranged(c, c')
    ensures Rearranged(node, b) && b.And? == node.And? && !b.Atom? && b.children != [] && b.children[0] == c'
  {
    var cs := node.children;
    var i :| 0 <= i < |cs| && cs[i] == c;
    var rest := cs[..i] + cs[i + 1..];
    var ms, ds := [c] + rest, [c'] + rest;
    b := if node.And? then And(ds) else Or(ds);
    MovedToFront(cs, i);
    SameMembers(ms, cs);
    assert forall x :: x in rest ==> x in ms;
    hide Rearranged, Pairwise;
    PairsInFront(cs, c, c', rest);
    FromMiddle(node, ms, b);
  }

  lemma PairsInFront(cs: seq<AuthExpr>, c: AuthExpr, c': AuthExpr, rest: seq<AuthExpr>)
    requires c in cs && Rearranged(c, c') && forall x :: x in rest ==> x in cs
    ensures Pairwise(cs, [c] + rest, [c'] + rest)
  {
    hide Rearranged;
    forall i | 0 <= i < |rest|
      ensures Rearranged(rest[i], rest[i])
    {
      RearrangedSelf(rest[i]);
    }
  }

  lemma MovedToFront(cs: seq<AuthExpr>, i: nat)
    requires i < |cs|
    ensures multiset([cs[i]] + (cs[..i] + cs[i + 1..])) == multiset(cs)
  {
    assert cs == cs[..i] + [cs[i]] + cs[i + 1..];
  }

  lemma FromMiddle(a: AuthExpr, ms: seq<AuthExpr>, b: AuthExpr)
    requires !a.Atom? && !b.Atom? && a.And? == b.And?
    requires multiset(ms) == multiset(a.children) && Pairwise(a.children, ms, b.children)
    ensures Rearranged(a, b)
  {
  }

  lemma LeadingReports(node: AuthExpr, c: AuthExpr, c': AuthExpr, b: AuthExpr, d: AuthDecision,
                       actor: ActorDefinition, view: ActorView, clock: Clock)
    requires Rearranged(node, b) && !b.Atom? && b.children != [] && b.children[0] == c' && Reports(c', d, actor, view, clock)
    requires d != Allow && !Can(node, Allow, DecisionsOf(actor, view, clock)) && (b.And? || d == Indeterminate)
    ensures Reports(b, d, actor, view, clock)
  {
    RearrangedIsReordered(node, b);
    OptionsIgnoreOrder(node, b, DecisionsOf(actor, view, clock));
    ReportIsOption(b, actor, view, clock);
    hide Options, EvalAtom, Rearranged, Reordered;
    if b.And? {
      ConjunctsReport(b.children, actor, view, clock);
    } else {
      DisjunctsReport(b.children, false, actor, view, clock);
      assert SomeReports(b.children, Indeterminate, actor, view, clock);
    }
  }

  // ----- when order matters

  ghost predicate OrderFree(node: AuthExpr, actor: ActorDefinition, view: ActorView, clock: Clock) {
    forall b :: Rearranged(node, b) ==> EvalAuth(b, actor, view, clock).decision == EvalAuth(node, actor, view, clock).decision
  }

  // The decisions of a tree's rearrangements are exactly its options.
  lemma OptionsExactly(node: AuthExpr, d: AuthDecision, actor: ActorDefinition, view: ActorView, clock: Clock)
    ensures d in Options(node, DecisionsOf(actor, view, clock))
        <==> exists b :: Rearranged(node, b) && Reports(b, d, actor, view, clock)
  {
    var atoms := DecisionsOf(actor, view, clock);
    if d in Options(node, atoms) {
      var b := Attained(node, d, actor, view, clock);
    }
    forall b | Rearranged(node, b) && Reports(b, d, actor, view, clock)
      ensures d in Options(node, atoms)
    {
      RearrangedIsReordered(node, b);
      OptionsIgnoreOrder(node, b, atoms);
      ReportIsOption(b, actor, view, clock);
    }
    hide Options, Rearranged, EvalAuth;
  }

  // The order of children is of no consequence exactly when the tree has a single option.
  lemma OrderMattersExactly(node: AuthExpr, actor: ActorDefinition, view: ActorView, clock: Clock)
    ensures OrderFree(node, actor, view, clock) <==> |Options(node, DecisionsOf(actor, view, clock))| == 1
  {
    hide Options, Rearranged, EvalAuth, DecisionsOf;
    var options := Options(node, DecisionsOf(actor, view, clock));
    var mine := EvalAuth(node, actor, view, clock).decision;
    RearrangedSelf(node);
    forall d
      ensures d in options <==> exists b :: Rearranged(node, b) && Reports(b, d, actor, view, clock)
    {
      OptionsExactly(node, d, actor, view, clock);
    }
    assert Reports(node, mine, actor, view, clock);
    OneElement(options, mine);
    if forall d :: d in options ==> d == mine {
      forall b | Rearranged(node, b)
        ensures EvalAuth(b, actor, view, clock).decision == mine
      {
        var d := EvalAuth(b, actor, view, clock).decision;
        assert Reports(b, d, actor, view, clock);
        assert d in options;
      }
    }
  }

  lemma OneElement(s: set<AuthDecision>, x: AuthDecision)
    requires x in s
    ensures |s| == 1 <==> forall d :: d in s ==> d == x
  {
    var rest := s - {x};
    assert |rest| == |s| - 1;
    if |s| == 1 {
      assert rest == {};
      assert forall d :: d in s ==> d == x || d in rest;
    }
    if forall d :: d in s ==> d == x {
      assert rest == {};
    }
  }

  // For a conjunction of atoms: when no one denies while another is undecided, or all allow.
  lemma FlatOrderMattersExactly(atoms: seq<AuthExpr>, actor: ActorDefinition, view: ActorView, clock: Clock)
    requires forall a :: a in atoms ==> a.Atom?
    ensures OrderFree(And(atoms), actor, view, clock)
        <==> !(SomeReports(atoms, Deny, actor, view, clock) && SomeReports(atoms, Indeterminate, actor, view, clock))
  {
    var decisions := DecisionsOf(actor, view, clock);
    OrderMattersExactly(And(atoms), actor, view, clock);
    OptionsShape(And(atoms), decisions);
    forall a, d | a in atoms
      ensures Can(a, d, decisions) <==> Reports(a, d, actor, view, clock)
    {
    }
    hide OrderFree, Can, Reports;
    assert forall d :: SomeCan(atoms, d, decisions) == SomeReports(atoms, d, actor, view, clock);
    FlatOptions(atoms, decisions);
  }

  lemma FlatOptions(atoms: seq<AuthExpr>, decisions: AtomDecisions)
    requires forall a :: a in atoms ==> a.Atom?
    ensures |Options(And(atoms), decisions)| == 1 <==> !(SomeCan(atoms, Deny, decisions) && SomeCan(atoms, Indeterminate, decisions))
  {
    OptionsShape(And(atoms), decisions);
    forall a | a in atoms
      ensures Can(a, Allow, decisions) ==> !Can(a, Deny, decisions) && !Can(a, Indeterminate, decisions)
    {
      OptionsShape(a, decisions);
    }
    assert EachCan(atoms, Allow, decisions) ==> !SomeCan(atoms, Deny, decisions) && !SomeCan(atoms, Indeterminate, decisions);
    hide SomeCan, EachCan;
    assert |{Deny, Indeterminate}| == 2;
  }

  // A clock that has passed every readable bound, and reads "2000-01-01" alone.
  function PastMillennium(): Clock {
    Clock((bound: string) => if bound == "2000-01-01" then Some(0) else None, Some(Some(1)))
  }

  // A passed bound beside an unreadable one: denied one way round, undecided the other.
  lemma RefusalDependsOnOrder(actor: ActorDefinition, view: ActorView)
    ensures var late, odd := Atom(Temporal(Before), "2000-01-01"), Atom(Temporal(After), "never");
      && EvalAuth(And([late, odd]), actor, view, PastMillennium()).decision == Deny
      && EvalAuth(And([odd, late]), actor, view, PastMillennium()).decision == Indeterminate
      && !OrderFree(And([late, odd]), actor, view, PastMillennium())
  {
    var late, odd, clock := Atom(Temporal(Before), "2000-01-01"), Atom(Temporal(After), "never"), PastMillennium();
    assert Reports(late, Deny, actor, view, clock) && Reports(odd, Indeterminate, actor, view, clock);
    assert late in [late, odd] && odd in [late, odd];
    FlatOrderMattersExactly([late, odd], actor, view, clock);
    ConjunctsReport([late, odd], actor, view, clock);
    ConjunctsReport([odd, late], actor, view, clock);
    hide EvalConjuncts, OrderFree, EvalAtom;
  }
}
