/** The same question for the whole result: when the order of children can change the decision or its reason code. */
module AuthReasons {
  import opened AuthSyntax
  import opened AuthEval
  import opened AuthOrder
  import opened Text
  import opened Wrappers

  // The code a disjunction gives, and every ALLOW.
  function CodeOf(d: AuthDecision): ReasonCode {
    match d
    case Allow => Authorized
    case Deny => AuthorizationDenied
    case Indeterminate => UnsupportedAuthorization
  }

  // The results a tree's rearrangements can report: for `and` those of its refusing children, for `or` one for each
  // decision it can report.
  ghost predicate CanResult(node: AuthExpr, r: AuthResult, actor: ActorDefinition, view: ActorView, clock: Clock)
    decreases node, 0
  {
    match node
    case Atom(kind, value) => r == EvalAtom(kind, value, actor, view, clock)
    case And(cs) =>
      if EachCan(cs, Allow, DecisionsOf(actor, view, clock)) then r == AuthResult(Allow, Authorized)
      else r.decision != Allow && SomeResult(cs, r, actor, view, clock)
    case Or(_) => Can(node, r.decision, DecisionsOf(actor, view, clock)) && r.reasonCode == CodeOf(r.decision)
  }

  ghost predicate SomeResult(cs: seq<AuthExpr>, r: AuthResult, actor: ActorDefinition, view: ActorView, clock: Clock)
    decreases cs, 0
  {
    exists c :: c in cs && CanResult(c, r, actor, view, clock)
  }

  // ----- what is reported is such a result

  lemma {:induction false} AllowIsAuthorized(node: AuthExpr, actor: ActorDefinition, view: ActorView, clock: Clock)
    ensures var r := EvalAuth(node, actor, view, clock); r.decision == Allow ==> r.reasonCode == Authorized
    decreases node
  {
    match node
    case Atom(kind, value) => AtomCode(kind, value, actor, view, clock);
    case And(cs) => ConjunctsCode(cs, actor, view, clock);
    case Or(cs) =>
      forall c | c in cs
        ensures EvalAuth(c, actor, view, clock).decision == Allow ==> EvalAuth(c, actor, view, clock).reasonCode == Authorized
      {
        AllowIsAuthorized(c, actor, view, clock);
      }
      DisjunctsCode(cs, false, actor, view, clock);
  }

  lemma AtomCode(kind: AtomKind, value: string, actor: ActorDefinition, view: ActorView, clock: Clock)
    ensures var r := EvalAtom(kind, value, actor, view, clock); r.decision == Allow ==> r.reasonCode == Authorized
  {
    hide Discharges, InView, NormalizeToken, AtomRevoked;
  }

  // A conjunction's result is the first refusing child's own, or plain ALLOW.
  lemma {:induction false} ConjunctsCode(cs: seq<AuthExpr>, actor: ActorDefinition, view: ActorView, clock: Clock)
    ensures var r := EvalConjuncts(cs, actor, view, clock);
      if r.decision == Allow then r.reasonCode == Authorized
      else exists c :: c in cs && EvalAuth(c, actor, view, clock) == r
  {
    hide EvalAuth;
    if cs != [] {
      ConjunctsCode(cs[1..], actor, view, clock);
      assert forall c :: c in cs <==> c == cs[0] || c in cs[1..];
    }
  }

  lemma {:induction false} DisjunctsCode(cs: seq<AuthExpr>, saw: bool, actor: ActorDefinition, view: ActorView, clock: Clock)
    requires forall c :: c in cs && EvalAuth(c, actor, view, clock).decision == Allow ==>
      EvalAuth(c, actor, view, clock).reasonCode == Authorized
    ensures var r := EvalDisjuncts(cs, saw, actor, view, clock); r.reasonCode == CodeOf(r.decision)
    decreases cs
  {
    hide EvalAuth;
    if cs != [] {
      assert forall c :: c in cs[1..] ==> c in cs;
      DisjunctsCode(cs[1..], saw || EvalAuth(cs[0], actor, view, clock).decision == Indeterminate, actor, view, clock);
    }
  }

  lemma OrCode(cs: seq<AuthExpr>, actor: ActorDefinition, view: ActorView, clock: Clock)
    ensures var r := EvalAuth(Or(cs), actor, view, clock); r.reasonCode == CodeOf(r.decision)
  {
    forall c | c in cs
      ensures EvalAuth(c, actor, view, clock).decision == Allow ==> EvalAuth(c, actor, view, clock).reasonCode == Authorized
    {
      AllowIsAuthorized(c, actor, view, clock);
    }
    DisjunctsCode(cs, false, actor, view, clock);
  }

  lemma {:induction false} ReportIsResult(node: AuthExpr, actor: ActorDefinition, view: ActorView, clock: Clock)
    ensures CanResult(node, EvalAuth(node, actor, view, clock), actor, view, clock)
    decreases node
  {
    hide EvalAtom, Can, EachCan, DecisionsOf;
    match node
    case Atom(_, _) =>
    case And(cs) =>
      forall c | c in cs
        ensures CanResult(c, EvalAuth(c, actor, view, clock), actor, view, clock)
      {
        ReportIsResult(c, actor, view, clock);
      }
      hide CanResult;
      ConjunctsCode(cs, actor, view, clock);
      AllowWhenEachCan(cs, actor, view, clock);
      ConjunctionResult(cs, EvalAuth(node, actor, view, clock), actor, view, clock);
    case Or(cs) =>
      OrCode(cs, actor, view, clock);
      ReportCan(node, actor, view, clock);
  }

  lemma ConjunctionResult(cs: seq<AuthExpr>, r: AuthResult, actor: ActorDefinition, view: ActorView, clock: Clock)
    requires EachCan(cs, Allow, DecisionsOf(actor, view, clock)) ==> r == AuthResult(Allow, Authorized)
    requires !EachCan(cs, Allow, DecisionsOf(actor, view, clock)) ==> r.decision != Allow && SomeResult(cs, r, actor, view, clock)
    ensures CanResult(And(cs), r, actor, view, clock)
  {
    hide EachCan, DecisionsOf, SomeResult;
  }

  lemma ReportCan(node: AuthExpr, actor: ActorDefinition, view: ActorView, clock: Clock)
    ensures Can(node, EvalAuth(node, actor, view, clock).decision, DecisionsOf(actor, view, clock))
  {
    ReportIsOption(node, actor, view, clock);
    hide EvalAuth, Options, DecisionsOf;
  }

  lemma AllowWhenEachCan(cs: seq<AuthExpr>, actor: ActorDefinition, view: ActorView, clock: Clock)
    ensures EvalAuth(And(cs), actor, view, clock).decision == Allow <==> EachCan(cs, Allow, DecisionsOf(actor, view, clock))
  {
    ReportCan(And(cs), actor, view, clock);
    hide EvalAuth, DecisionsOf, EachCan, SomeCan;
  }

  // ----- reordering

  lemma {:induction false} ResultsIgnoreOrder(a: AuthExpr, b: AuthExpr, r: AuthResult,
                                              actor: ActorDefinition, view: ActorView, clock: Clock)
    requires Reordered(a, b)
    ensures CanResult(a, r, actor, view, clock) <==> CanResult(b, r, actor, view, clock)
    decreases a
  {
    hide EvalAtom, DecisionsOf, HasImage, HasOrigin, Can, EachCan, SomeCan, SomeResult;
    match a
    case Atom(_, _) =>
    case Or(_) =>
      OptionsIgnoreOrder(a, b, DecisionsOf(actor, view, clock));
      SameCan(a, b, r.decision, actor, view, clock);
    case And(cs) =>
      var es := b.children;
      assert Matched(a, cs, es);
      forall c | c in cs
        ensures CanResult(c, r, actor, view, clock) ==> SomeResult(es, r, actor, view, clock)
      {
        var e := Image(c, es);
        ResultsIgnoreOrder(c, e, r, actor, view, clock);
        OneResult(es, e, r, actor, view, clock);
      }
      forall e | e in es
        ensures CanResult(e, r, actor, view, clock) ==> SomeResult(cs, r, actor, view, clock)
      {
        var c := Origin(a, cs, e);
        ResultsIgnoreOrder(c, e, r, actor, view, clock);
        OneResult(cs, c, r, actor, view, clock);
      }
      SomeResultCarries(cs, es, r, actor, view, clock);
      SomeResultCarries(es, cs, r, actor, view, clock);
      OptionsIgnoreOrder(a, b, DecisionsOf(actor, view, clock));
      SameEachCan(cs, es, actor, view, clock);
  }

  lemma OneResult(cs: seq<AuthExpr>, c: AuthExpr, r: AuthResult, actor: ActorDefinition, view: ActorView, clock: Clock)
    requires c in cs
    ensures CanResult(c, r, actor, view, clock) ==> SomeResult(cs, r, actor, view, clock)
  {
    hide CanResult;
  }

  lemma SomeResultCarries(cs: seq<AuthExpr>, es: seq<AuthExpr>, r: AuthResult,
                          actor: ActorDefinition, view: ActorView, clock: Clock)
    requires forall c :: c in cs && CanResult(c, r, actor, view, clock) ==> SomeResult(es, r, actor, view, clock)
    ensures SomeResult(cs, r, actor, view, clock) ==> SomeResult(es, r, actor, view, clock)
  {
    hide CanResult;
  }

  lemma SameCan(a: AuthExpr, b: AuthExpr, d: AuthDecision, actor: ActorDefinition, view: ActorView, clock: Clock)
    requires Options(a, DecisionsOf(actor, view, clock)) == Options(b, DecisionsOf(actor, view, clock))
    ensures Can(a, d, DecisionsOf(actor, view, clock)) == Can(b, d, DecisionsOf(actor, view, clock))
  {
  }

  lemma SameEachCan(cs: seq<AuthExpr>, es: seq<AuthExpr>, actor: ActorDefinition, view: ActorView, clock: Clock)
    requires Options(And(cs), DecisionsOf(actor, view, clock)) == Options(And(es), DecisionsOf(actor, view, clock))
    ensures EachCan(cs, Allow, DecisionsOf(actor, view, clock)) == EachCan(es, Allow, DecisionsOf(actor, view, clock))
  {
    hide EachCan, SomeCan, DecisionsOf;
    assert Allow in Options(And(cs), DecisionsOf(actor, view, clock)) <==> EachCan(cs, Allow, DecisionsOf(actor, view, clock));
    assert Allow in Options(And(es), DecisionsOf(actor, view, clock)) <==> EachCan(es, Allow, DecisionsOf(actor, view, clock));
  }

  // ----- every such result is reported by some rearrangement

  lemma {:induction false} ResultAttained(node: AuthExpr, r: AuthResult, actor: ActorDefinition, view: ActorView, clock: Clock)
    returns (b: AuthExpr)
    requires CanResult(node, r, actor, view, clock)
    ensures Rearranged(node, b) && EvalAuth(b, actor, view, clock) == r
    decreases node
  {
    hide EvalAtom, DecisionsOf, Can, EachCan, Rearranged;
    match node
    case Atom(_, _) =>
      b := node;
      RearrangedSelf(node);
    case Or(cs) =>
      b := Attained(node, r.decision, actor, view, clock);
      RearrangedKind(node, b);
      OrCode(b.children, actor, view, clock);
    case And(cs) =>
      if r.decision == Allow {
        b := node;
        RearrangedSelf(node);
        AllowWhenEachCan(cs, actor, view, clock);
        ConjunctsCode(cs, actor, view, clock);
      } else {
        var c :| c in cs && CanResult(c, r, actor, view, clock);
        var c' := ResultAttained(c, r, actor, view, clock);
        b := Leading(node, c, c');
        FirstRefusal(b.children, actor, view, clock);
      }
  }

  lemma RearrangedKind(a: AuthExpr, b: AuthExpr)
    requires Rearranged(a, b)
    ensures a.Or? ==> b.Or?
  {
  }

  lemma FirstRefusal(cs: seq<AuthExpr>, actor: ActorDefinition, view: ActorView, clock: Clock)
    requires cs != [] && EvalAuth(cs[0], actor, view, clock).decision != Allow
    ensures EvalAuth(And(cs), actor, view, clock) == EvalAuth(cs[0], actor, view, clock)
  {
    assert EvalAuth(And(cs), actor, view, clock) == EvalConjuncts(cs, actor, view, clock);
    hide EvalAuth;
  }

  // ----- when order matters

  ghost predicate ResultFree(node: AuthExpr, actor: ActorDefinition, view: ActorView, clock: Clock) {
    forall b :: Rearranged(node, b) ==> EvalAuth(b, actor, view, clock) == EvalAuth(node, actor, view, clock)
  }

  ghost predicate SingleResult(node: AuthExpr, actor: ActorDefinition, view: ActorView, clock: Clock) {
    forall r, q :: CanResult(node, r, actor, view, clock) && CanResult(node, q, actor, view, clock) ==> r == q
  }

  // The results of a tree's rearrangements.
  lemma ResultsExactly(node: AuthExpr, r: AuthResult, actor: ActorDefinition, view: ActorView, clock: Clock)
    ensures CanResult(node, r, actor, view, clock)
        <==> exists b :: Rearranged(node, b) && EvalAuth(b, actor, view, clock) == r
  {
    hide CanResult, Rearranged, EvalAuth;
    if CanResult(node, r, actor, view, clock) {
      var b := ResultAttained(node, r, actor, view, clock);
    }
    forall b | Rearranged(node, b)
      ensures CanResult(node, EvalAuth(b, actor, view, clock), actor, view, clock)
    {
      RearrangedIsReordered(node, b);
      ResultsIgnoreOrder(node, b, EvalAuth(b, actor, view, clock), actor, view, clock);
      ReportIsResult(b, actor, view, clock);
    }
  }

  // Decision and reason code together are free of order exactly when the tree has a single result.
  lemma ReasonMattersExactly(node: AuthExpr, actor: ActorDefinition, view: ActorView, clock: Clock)
    ensures ResultFree(node, actor, view, clock) <==> SingleResult(node, actor, view, clock)
  {
    hide CanResult, Rearranged, EvalAuth;
    forall r
      ensures CanResult(node, r, actor, view, clock)
          <==> exists b :: Rearranged(node, b) && EvalAuth(b, actor, view, clock) == r
    {
      ResultsExactly(node, r, actor, view, clock);
    }
    RearrangedSelf(node);
    if SingleResult(node, actor, view, clock) {
      forall b | Rearranged(node, b)
        ensures EvalAuth(b, actor, view, clock) == EvalAuth(node, actor, view, clock)
      {
        assert CanResult(node, EvalAuth(b, actor, view, clock), actor, view, clock);
        assert CanResult(node, EvalAuth(node, actor, view, clock), actor, view, clock);
      }
    }
  }

  // Some atom refuses with this result.
  ghost predicate Refusal(atoms: seq<AuthExpr>, r: AuthResult, actor: ActorDefinition, view: ActorView, clock: Clock) {
    r.decision != Allow && exists a :: a in atoms && EvalAuth(a, actor, view, clock) == r
  }

  lemma FlatResults(atoms: seq<AuthExpr>, r: AuthResult, actor: ActorDefinition, view: ActorView, clock: Clock)
    requires forall a :: a in atoms ==> a.Atom?
    ensures Refusal(atoms, r, actor, view, clock) ==> CanResult(And(atoms), r, actor, view, clock)
    ensures CanResult(And(atoms), r, actor, view, clock) ==>
      Refusal(atoms, r, actor, view, clock)
      || (r == AuthResult(Allow, Authorized) && forall q :: !Refusal(atoms, q, actor, view, clock))
  {
    var decisions := DecisionsOf(actor, view, clock);
    forall a, q | a in atoms
      ensures CanResult(a, q, actor, view, clock) <==> q == EvalAuth(a, actor, view, clock)
    {
    }
    forall a | a in atoms
      ensures Can(a, Allow, decisions) <==> EvalAuth(a, actor, view, clock).decision == Allow
    {
    }
    assert EachCan(atoms, Allow, decisions) <==> forall a :: a in atoms ==> EvalAuth(a, actor, view, clock).decision == Allow;
    if SomeResult(atoms, r, actor, view, clock) {
      var c :| c in atoms && CanResult(c, r, actor, view, clock);
      assert EvalAuth(c, actor, view, clock) == r;
    }
    forall a | a in atoms && EvalAuth(a, actor, view, clock) == r
      ensures SomeResult(atoms, r, actor, view, clock)
    {
      OneResult(atoms, a, r, actor, view, clock);
    }
    hide EvalAtom, DecisionsOf, Can, EachCan, SomeResult, EvalAuth;
  }

  // A conjunction of atoms: all its refusals must be the same.
  lemma FlatReasonMattersExactly(atoms: seq<AuthExpr>, actor: ActorDefinition, view: ActorView, clock: Clock)
    requires forall a :: a in atoms ==> a.Atom?
    ensures ResultFree(And(atoms), actor, view, clock)
        <==> forall r, q :: Refusal(atoms, r, actor, view, clock) && Refusal(atoms, q, actor, view, clock) ==> r == q
  {
    hide ResultFree, CanResult, Refusal;
    ReasonMattersExactly(And(atoms), actor, view, clock);
    forall r
      ensures Refusal(atoms, r, actor, view, clock) ==> CanResult(And(atoms), r, actor, view, clock)
      ensures CanResult(And(atoms), r, actor, view, clock) ==>
        Refusal(atoms, r, actor, view, clock)
        || (r == AuthResult(Allow, Authorized) && forall q :: !Refusal(atoms, q, actor, view, clock))
    {
      FlatResults(atoms, r, actor, view, clock);
    }
  }

  // Someone who holds nothing, and whose role "a" is revoked.
  const STRIPPED := ActorDefinition(None, [], [], [], [], ["a"])
  const UNKNOWN := ActorView([], [], [], [], [], None, None, None)

  lemma PlainTokens()
    ensures NormalizeToken("a") == "a" && NormalizeToken("b") == "b"
  {
    assert Strip("a") == "a" && Lower("a") == "a";
    assert Strip("b") == "b" && Lower("b") == "b";
  }

  lemma StrippedIsRefused(clock: Clock)
    ensures EvalAuth(Atom(Role, "a"), STRIPPED, UNKNOWN, clock) == AuthResult(Deny, Revoked)
    ensures EvalAuth(Atom(Role, "b"), STRIPPED, UNKNOWN, clock) == AuthResult(Deny, AuthorizationDenied)
  {
    PlainTokens();
    hide NormalizeToken;
    assert AtomRevoked(Role, "a", ["a"] + []);
    assert !AtomRevoked(Role, "b", ["a"] + []);
    assert Candidates(STRIPPED) == [];
  }

  // A revoked role beside one that is missing: denied either way, for one reason or the other.
  lemma ReasonDependsOnOrder(clock: Clock)
    ensures var revoked, missing := Atom(Role, "a"), Atom(Role, "b");
      && EvalAuth(And([revoked, missing]), STRIPPED, UNKNOWN, clock) == AuthResult(Deny, Revoked)
      && EvalAuth(And([missing, revoked]), STRIPPED, UNKNOWN, clock) == AuthResult(Deny, AuthorizationDenied)
      && OrderFree(And([revoked, missing]), STRIPPED, UNKNOWN, clock)
      && !ResultFree(And([revoked, missing]), STRIPPED, UNKNOWN, clock)
  {
    var a, b := Atom(Role, "a"), Atom(Role, "b");
    StrippedIsRefused(clock);
    hide EvalAuth, OrderFree, ResultFree;
    FirstRefusal([a, b], STRIPPED, UNKNOWN, clock);
    FirstRefusal([b, a], STRIPPED, UNKNOWN, clock);
    TwoRefusals(a, b, Revoked, AuthorizationDenied, STRIPPED, UNKNOWN, clock);
  }

  // Two atoms denied for different reasons: order is free for the decision, and not for the reason.
  lemma TwoRefusals(a: AuthExpr, b: AuthExpr, x: ReasonCode, y: ReasonCode, actor: ActorDefinition, view: ActorView, clock: Clock)
    requires a.Atom? && b.Atom? && x != y
    requires EvalAuth(a, actor, view, clock) == AuthResult(Deny, x) && EvalAuth(b, actor, view, clock) == AuthResult(Deny, y)
    ensures OrderFree(And([a, b]), actor, view, clock) && !ResultFree(And([a, b]), actor, view, clock)
  {
    hide EvalAuth, OrderFree, ResultFree;
    assert a in [a, b] && b in [a, b];
    FlatOrderMattersExactly([a, b], actor, view, clock);
    FlatReasonMattersExactly([a, b], actor, view, clock);
    assert Refusal([a, b], AuthResult(Deny, x), actor, view, clock);
    assert Refusal([a, b], AuthResult(Deny, y), actor, view, clock);
  }
}
