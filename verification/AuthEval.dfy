/** Three-valued, fail-closed evaluation of authorization trees. */
module AuthEval {
  import opened Wrappers
  import opened Text
  import opened AuthSyntax

  datatype ActorDefinition = ActorDefinition(
    authoritySource: Option<string>,
    roles: seq<string>,
    capabilities: seq<string>,
    credentials: seq<string>,
    delegationRules: seq<string>,
    revocationRules: seq<string>)

  // What the runtime knows of the actor beyond its definition.
  datatype ActorView = ActorView(
    revocationRules: seq<string>,
    roles: seq<string>,
    capabilities: seq<string>,
    credentials: seq<string>,
    grants: seq<string>,
    policy: Option<string>,
    scope: Option<string>,
    tenant: Option<string>)

  datatype AuthDecision = Allow | Deny | Indeterminate

  datatype ReasonCode =
    | Authorized | AuthorizationDenied | Revoked | ScopeExpansion | UnsupportedAuthorization
    | MissingNow | Expired

  datatype AuthResult = AuthResult(decision: AuthDecision, reasonCode: ReasonCode)

  // Instants as integers. The bound of a temporal atom is read by `parse`, None where it is no date; `now` is the
  // context's own time, if it has one, and None again where it is no date.
  datatype Clock = Clock(parse: string -> Option<int>, now: Option<Option<int>>)

  // ----- tokens

  // The first optional prefix that leaves something behind it, dropped; on one line only.
  function NormalizeToken(token: string): string {
    var t := Strip(token);
    if '\n' in t then Lower(t)
    else Lower(Strip(DropPrefix(t, ["role:", "authz:", "capability:"])))
  }

  function DropPrefix(t: string, prefixes: seq<string>): string {
    if prefixes == [] then t
    else if StartsWith(Lower(t), prefixes[0]) && |t| > |prefixes[0]| then t[|prefixes[0]|..]
    else DropPrefix(t, prefixes[1..])
  }

  const DELEGATION_PREFIXES: seq<string> := ["delegates:", "delegate:", "via:", "grant:", "from:", "to:"]

  function DelegationPrefix(rule: string, prefixes: seq<string>): Option<string> {
    if prefixes == [] then None
    else if StartsWith(Lower(Strip(rule)), prefixes[0]) then Some(prefixes[0])
    else DelegationPrefix(rule, prefixes[1..])
  }

  predicate ArrowAt(s: string) { |s| >= 2 && s[0] == '-' && s[1] == '>' }

  // str.split("->")
  function SplitArrows(s: string, buf: string): (parts: seq<string>)
    ensures parts != []
    decreases |s|
  {
    if s == [] then [buf]
    else if ArrowAt(s) then [buf] + SplitArrows(s[2..], "")
    else SplitArrows(s[1..], buf + [s[0]])
  }

  function NormalizeAll(tokens: seq<string>): seq<string> {
    seq(|tokens|, i requires 0 <= i < |tokens| => NormalizeToken(tokens[i]))
  }

  // The prefix is looked for in the stripped rule but cut off the rule as given.
  function DelegationTargets(rule: string): seq<string> {
    var prefix := DelegationPrefix(rule, DELEGATION_PREFIXES);
    if prefix.Some? then
      [NormalizeToken(if |prefix.value| <= |rule| then rule[|prefix.value|..] else "")]
    else NormalizeAll(SplitArrows(rule, ""))
  }

  // ----- discharge

  function AllTargets(rules: seq<string>): seq<string> {
    if rules == [] then [] else DelegationTargets(rules[0]) + AllTargets(rules[1..])
  }

  // Everything the actor can show.
  function Candidates(actor: ActorDefinition): seq<string> {
    (if actor.authoritySource.Some? && actor.authoritySource.value != [] then [actor.authoritySource.value] else [])
    + actor.roles + actor.capabilities + actor.credentials + AllTargets(actor.delegationRules)
  }

  predicate TokensAgree(candidate: string, auth: string) {
    NormalizeToken(candidate) == NormalizeToken(auth) || Lower(Strip(candidate)) == Lower(Strip(auth))
  }

  predicate Revokes(rules: seq<string>, needle: string) {
    exists rule :: rule in rules && NormalizeToken(rule) == needle
  }

  predicate Discharges(auth: string, actor: ActorDefinition) {
    !Revokes(actor.revocationRules, NormalizeToken(auth))
    && exists c :: c in Candidates(actor) && TokensAgree(c, auth)
  }

  method ActorDischarges(auth: string, actor: ActorDefinition) returns (ok: bool)
    ensures ok == Discharges(auth, actor)
  {
    hide NormalizeToken, DelegationTargets, Lower, Strip;
    var needle := NormalizeToken(auth);
    for i := 0 to |actor.revocationRules|
      invariant forall j :: 0 <= j < i ==> NormalizeToken(actor.revocationRules[j]) != needle
    {
      if NormalizeToken(actor.revocationRules[i]) == needle {
        return false;
      }
    }
    var candidates: seq<string> := [];
    if actor.authoritySource.Some? && actor.authoritySource.value != [] {
      candidates := candidates + [actor.authoritySource.value];
    }
    candidates := candidates + actor.roles;
    candidates := candidates + actor.capabilities;
    candidates := candidates + actor.credentials;
    ghost var shown := candidates;
    var rules := actor.delegationRules;
    assert rules[0..] == rules && shown + AllTargets(rules) == Candidates(actor);
    for i := 0 to |rules|
      invariant candidates + AllTargets(rules[i..]) == Candidates(actor)
    {
      assert rules[i..][1..] == rules[i + 1..];
      assert candidates + (DelegationTargets(rules[i]) + AllTargets(rules[i + 1..]))
          == candidates + DelegationTargets(rules[i]) + AllTargets(rules[i + 1..]);
      candidates := candidates + DelegationTargets(rules[i]);
    }
    assert AllTargets(rules[|rules|..]) == [];
    assert candidates == Candidates(actor);
    for i := 0 to |candidates|
      invariant forall j :: 0 <= j < i ==> !TokensAgree(candidates[j], auth)
    {
      if NormalizeToken(candidates[i]) == needle {
        assert TokensAgree(candidates[i], auth);
        return true;
      }
      if Lower(Strip(candidates[i])) == Lower(Strip(auth)) {
        assert TokensAgree(candidates[i], auth);
        return true;
      }
    }
    ok := false;
  }

  // ----- atoms

  function KindName(kind: AtomKind): string {
    match kind
    case Role => "role"
    case Capability => "capability"
    case Policy => "policy"
    case Scope => "scope"
    case Tenant => "tenant"
    case Grant => "grant"
    case Delegation => "delegation"
    case Authority => "authority"
    case Temporal(_) => "temporal"
  }

  predicate AtomRevoked(kind: AtomKind, value: string, rules: seq<string>) {
    var needle := NormalizeToken(if kind.Role? then value else KindName(kind) + ":" + value);
    exists rule :: rule in rules && (NormalizeToken(rule) == needle || NormalizeToken(rule) == NormalizeToken(value))
  }

  // Tokens added to the view at reset.
  predicate InView(token: string, view: ActorView) {
    exists x :: x in view.roles + view.capabilities + view.credentials + view.grants
                && (x == token || NormalizeToken(x) == NormalizeToken(token))
  }

  function EvalToken(kind: AtomKind, token: string, actor: ActorDefinition, view: ActorView): AuthResult {
    var check := if kind.Authority? then token else KindName(kind) + ":" + token;
    if Discharges(check, actor) || Discharges(token, actor) then AuthResult(Allow, Authorized)
    else if InView(token, view) then AuthResult(Allow, Authorized)
    else AuthResult(Deny, AuthorizationDenied)
  }

  function EvalAttribute(kind: AtomKind, required: string, actual: Option<string>,
                         actor: ActorDefinition, view: ActorView): AuthResult {
    if actual.None? then
      var tagged := KindName(kind) + ":" + required;
      if Discharges(tagged, actor) || tagged in view.credentials then AuthResult(Allow, Authorized)
      else AuthResult(Deny, AuthorizationDenied)
    else
      var granted := actual.value;
      if granted == required || NormalizeToken(granted) == NormalizeToken(required) then AuthResult(Allow, Authorized)
      else if kind.Scope? && StartsWith(required, granted + ".") then AuthResult(Allow, Authorized)
      else if kind.Scope? && StartsWith(granted, required + ".") then AuthResult(Deny, ScopeExpansion)
      else AuthResult(Deny, AuthorizationDenied)
  }

  // The bound is read first, whatever the operator.
  function EvalTemporal(op: TemporalOp, bound: string, clock: Clock): AuthResult {
    var limit := clock.parse(bound);
    if limit.None? then AuthResult(Indeterminate, UnsupportedAuthorization)
    else if clock.now.None? then AuthResult(Deny, MissingNow)
    else if clock.now.value.None? then AuthResult(Indeterminate, UnsupportedAuthorization)
    else
      var now := clock.now.value.value;
      var ok := match op case Before => now < limit.value case After => now > limit.value case Expires => now <= limit.value;
      if ok then AuthResult(Allow, Authorized) else AuthResult(Deny, Expired)
  }

  function EvalAtom(kind: AtomKind, value: string, actor: ActorDefinition, view: ActorView, clock: Clock): AuthResult {
    if kind.Temporal? then EvalTemporal(kind.op, value, clock)
    else if AtomRevoked(kind, value, actor.revocationRules + view.revocationRules) then AuthResult(Deny, Revoked)
    else match kind
      case Policy => EvalAttribute(kind, value, view.policy, actor, view)
      case Scope => EvalAttribute(kind, value, view.scope, actor, view)
      case Tenant => EvalAttribute(kind, value, view.tenant, actor, view)
      case _ => EvalToken(kind, value, actor, view)
  }

  // ----- trees

  function EvalAuth(node: AuthExpr, actor: ActorDefinition, view: ActorView, clock: Clock): AuthResult
    decreases node, 0, 0
  {
    match node
    case Atom(kind, value) => EvalAtom(kind, value, actor, view, clock)
    case And(children) => EvalConjuncts(children, actor, view, clock)
    case Or(children) => EvalDisjuncts(children, false, actor, view, clock)
  }

  // The first child that does not allow decides.
  function EvalConjuncts(cs: seq<AuthExpr>, actor: ActorDefinition, view: ActorView, clock: Clock): AuthResult
    decreases cs, 1, 0
  {
    if cs == [] then AuthResult(Allow, Authorized)
    else
      var r := EvalAuth(cs[0], actor, view, clock);
      if r.decision != Allow then r else EvalConjuncts(cs[1..], actor, view, clock)
  }

  // The first child that allows decides; otherwise one undecided child leaves the whole undecided.
  function EvalDisjuncts(cs: seq<AuthExpr>, sawIndeterminate: bool,
                         actor: ActorDefinition, view: ActorView, clock: Clock): AuthResult
    decreases cs, 1, 0
  {
    if cs == [] then
      if sawIndeterminate then AuthResult(Indeterminate, UnsupportedAuthorization) else AuthResult(Deny, AuthorizationDenied)
    else
      var r := EvalAuth(cs[0], actor, view, clock);
      if r.decision == Allow then r
      else EvalDisjuncts(cs[1..], sawIndeterminate || r.decision == Indeterminate, actor, view, clock)
  }

  function Authorize(raw: string, actor: ActorDefinition, view: ActorView, clock: Clock): AuthResult {
    var tree := Compile(raw);
    if tree.Err? then AuthResult(Indeterminate, UnsupportedAuthorization)
    else EvalAuth(tree.value, actor, view, clock)
  }

  // ----- what ALLOW means

  // The tree as a Boolean formula over its atoms.
  ghost predicate Holds(node: AuthExpr, truth: (AtomKind, string) -> bool) {
    match node
    case Atom(kind, value) => truth(kind, value)
    case And(children) => forall c :: c in children ==> Holds(c, truth)
    case Or(children) => exists c :: c in children && Holds(c, truth)
  }

  ghost function AtomAllows(actor: ActorDefinition, view: ActorView, clock: Clock): (AtomKind, string) -> bool {
    (kind, value) => EvalAtom(kind, value, actor, view, clock).decision == Allow
  }

  lemma {:induction false} AllowIsTruth(node: AuthExpr, actor: ActorDefinition, view: ActorView, clock: Clock)
    ensures EvalAuth(node, actor, view, clock).decision == Allow <==> Holds(node, AtomAllows(actor, view, clock))
    decreases node, 0
  {
    hide EvalAtom;
    match node
    case Atom(_, _) =>
    case And(children) => ConjunctsAllow(children, actor, view, clock);
    case Or(children) => DisjunctsAllow(children, false, actor, view, clock);
  }

  lemma {:induction false} ConjunctsAllow(cs: seq<AuthExpr>, actor: ActorDefinition, view: ActorView, clock: Clock)
    ensures EvalConjuncts(cs, actor, view, clock).decision == Allow
        <==> forall c :: c in cs ==> Holds(c, AtomAllows(actor, view, clock))
    decreases cs, 1
  {
    hide EvalAuth, Holds, AtomAllows;
    if cs != [] {
      AllowIsTruth(cs[0], actor, view, clock);
      ConjunctsAllow(cs[1..], actor, view, clock);
      assert forall c :: c in cs <==> c == cs[0] || c in cs[1..];
    }
  }

  lemma {:induction false} DisjunctsAllow(cs: seq<AuthExpr>, saw: bool, actor: ActorDefinition, view: ActorView, clock: Clock)
    ensures EvalDisjuncts(cs, saw, actor, view, clock).decision == Allow
        <==> exists c :: c in cs && Holds(c, AtomAllows(actor, view, clock))
    decreases cs, 1
  {
    hide EvalAuth, Holds, AtomAllows;
    if cs != [] {
      var saw' := saw || EvalAuth(cs[0], actor, view, clock).decision == Indeterminate;
      AllowIsTruth(cs[0], actor, view, clock);
      DisjunctsAllow(cs[1..], saw', actor, view, clock);
      assert forall c :: c in cs <==> c == cs[0] || c in cs[1..];
    }
  }

  // ALLOW exactly when the string compiles and its formula is true of the atoms that allow.
  lemma AuthorizeExactly(raw: string, actor: ActorDefinition, view: ActorView, clock: Clock)
    ensures Authorize(raw, actor, view, clock).decision == Allow
        <==> Compile(raw).Ok? && Holds(Compile(raw).value, AtomAllows(actor, view, clock))
  {
    hide Compile, EvalAuth, Holds;
    if Compile(raw).Ok? {
      AllowIsTruth(Compile(raw).value, actor, view, clock);
    }
  }

  // ----- child order

  // The same tree up to the order, and repetition, of children at every level.
  ghost predicate Reordered(a: AuthExpr, b: AuthExpr)
    decreases a, 2
  {
    match a
    case Atom(_, _) => a == b
    case And(cs) => b.And? && Matched(a, cs, b.children)
    case Or(cs) => b.Or? && Matched(a, cs, b.children)
  }

  ghost predicate Matched(owner: AuthExpr, cs: seq<AuthExpr>, ds: seq<AuthExpr>)
    requires forall c :: c in cs ==> c < owner
    decreases owner, 1
  {
    (forall c :: c in cs ==> HasImage(c, ds)) && (forall d :: d in ds ==> HasOrigin(owner, cs, d))
  }

  ghost predicate HasImage(c: AuthExpr, ds: seq<AuthExpr>)
    decreases c, 3
  {
    exists d :: d in ds && Reordered(c, d)
  }

  ghost predicate HasOrigin(owner: AuthExpr, cs: seq<AuthExpr>, d: AuthExpr)
    requires forall c :: c in cs ==> c < owner
    decreases owner, 0
  {
    exists c :: c in cs && Reordered(c, d)
  }

  lemma {:induction false} OrderIsIrrelevant(a: AuthExpr, b: AuthExpr, truth: (AtomKind, string) -> bool)
    requires Reordered(a, b)
    ensures Holds(a, truth) <==> Holds(b, truth)
    decreases a, 0
  {
    if !a.Atom? {
      var cs, ds := a.children, b.children;
      assert Matched(a, cs, ds) && !b.Atom? && a.And? == b.And?;
      hide Reordered, HasImage, HasOrigin;
      forall c | c in cs
        ensures exists d :: d in ds && (Holds(c, truth) <==> Holds(d, truth))
      {
        var d := Image(c, ds);
        OrderIsIrrelevant(c, d, truth);
      }
      forall d | d in ds
        ensures exists c :: c in cs && (Holds(c, truth) <==> Holds(d, truth))
      {
        var c := Origin(a, cs, d);
        OrderIsIrrelevant(c, d, truth);
      }
    }
  }

  lemma Image(c: AuthExpr, ds: seq<AuthExpr>) returns (d: AuthExpr)
    requires HasImage(c, ds)
    ensures d in ds && Reordered(c, d)
  {
    d :| d in ds && Reordered(c, d);
  }

  lemma Origin(owner: AuthExpr, cs: seq<AuthExpr>, d: AuthExpr) returns (c: AuthExpr)
    requires forall x :: x in cs ==> x < owner
    requires HasOrigin(owner, cs, d)
    ensures c in cs && Reordered(c, d)
  {
    c :| c in cs && Reordered(c, d);
  }

  // Reordering children changes no ALLOW.
  lemma AllowIgnoresOrder(a: AuthExpr, b: AuthExpr, actor: ActorDefinition, view: ActorView, clock: Clock)
    requires Reordered(a, b)
    ensures EvalAuth(a, actor, view, clock).decision == Allow <==> EvalAuth(b, actor, view, clock).decision == Allow
  {
    hide EvalAuth, Holds, Reordered;
    AllowIsTruth(a, actor, view, clock);
    AllowIsTruth(b, actor, view, clock);
    OrderIsIrrelevant(a, b, AtomAllows(actor, view, clock));
  }

  // ----- monotonicity

  predicate Within(a: seq<string>, b: seq<string>) { forall x :: x in a ==> x in b }

  // b can show all that a can, and is revoked no more than a; the runtime attributes are the same.
  ghost predicate AtLeast(a: ActorDefinition, v: ActorView, b: ActorDefinition, w: ActorView) {
    && a.authoritySource == b.authoritySource
    && Within(a.roles, b.roles) && Within(a.capabilities, b.capabilities) && Within(a.credentials, b.credentials)
    && Within(a.delegationRules, b.delegationRules) && Within(b.revocationRules, a.revocationRules)
    && Within(v.roles, w.roles) && Within(v.capabilities, w.capabilities) && Within(v.credentials, w.credentials)
    && Within(v.grants, w.grants) && Within(w.revocationRules, v.revocationRules)
    && v.policy == w.policy && v.scope == w.scope && v.tenant == w.tenant
  }

  lemma {:induction false} TargetsWithin(rules: seq<string>, t: string)
    ensures t in AllTargets(rules) <==> exists r :: r in rules && t in DelegationTargets(r)
  {
    hide DelegationTargets;
    if rules != [] {
      TargetsWithin(rules[1..], t);
      assert forall r :: r in rules <==> r == rules[0] || r in rules[1..];
    }
  }

  lemma CandidatesGrow(a: ActorDefinition, v: ActorView, b: ActorDefinition, w: ActorView)
    requires AtLeast(a, v, b, w)
    ensures Within(Candidates(a), Candidates(b))
  {
    hide DelegationTargets, AllTargets;
    forall c | c in Candidates(a)
      ensures c in Candidates(b)
    {
      TargetsWithin(a.delegationRules, c);
      TargetsWithin(b.delegationRules, c);
    }
  }

  lemma DischargeGrows(auth: string, a: ActorDefinition, v: ActorView, b: ActorDefinition, w: ActorView)
    requires AtLeast(a, v, b, w) && Discharges(auth, a)
    ensures Discharges(auth, b)
  {
    hide Candidates, TokensAgree, NormalizeToken;
    CandidatesGrow(a, v, b, w);
  }

  lemma ViewGrows(token: string, v: ActorView, w: ActorView)
    requires Within(v.roles, w.roles) && Within(v.capabilities, w.capabilities)
    requires Within(v.credentials, w.credentials) && Within(v.grants, w.grants)
    ensures InView(token, v) ==> InView(token, w)
  {
    hide NormalizeToken;
    assert Within(v.roles + v.capabilities + v.credentials + v.grants, w.roles + w.capabilities + w.credentials + w.grants);
  }

  lemma AtomGrows(kind: AtomKind, value: string, a: ActorDefinition, v: ActorView, b: ActorDefinition, w: ActorView, clock: Clock)
    requires AtLeast(a, v, b, w) && EvalAtom(kind, value, a, v, clock).decision == Allow
    ensures EvalAtom(kind, value, b, w, clock).decision == Allow
  {
    hide Discharges, NormalizeToken, KindName;
    if !kind.Temporal? {
      assert !AtomRevoked(kind, value, b.revocationRules + w.revocationRules);
      var tagged := KindName(kind) + ":" + value;
      if Discharges(tagged, a) {
        DischargeGrows(tagged, a, v, b, w);
      }
      if Discharges(value, a) {
        DischargeGrows(value, a, v, b, w);
      }
      ViewGrows(value, v, w);
    }
  }

  lemma {:induction false} HoldsMonotone(node: AuthExpr, truth: (AtomKind, string) -> bool, truth': (AtomKind, string) -> bool)
    requires forall kind, value :: truth(kind, value) ==> truth'(kind, value)
    requires Holds(node, truth)
    ensures Holds(node, truth')
    decreases node
  {
    if !node.Atom? {
      forall c | c in node.children && Holds(c, truth)
        ensures Holds(c, truth')
      {
        HoldsMonotone(c, truth, truth');
      }
    }
  }

  // More roles, capabilities, credentials, delegations or grants, and fewer revocations, never lose an ALLOW;
  // read backwards, more revocations never make one.
  lemma AuthorizeMonotone(raw: string, a: ActorDefinition, v: ActorView, b: ActorDefinition, w: ActorView, clock: Clock)
    requires AtLeast(a, v, b, w) && Authorize(raw, a, v, clock).decision == Allow
    ensures Authorize(raw, b, w, clock).decision == Allow
  {
    hide Compile, EvalAuth, Holds, EvalAtom, AtLeast;
    AuthorizeExactly(raw, a, v, clock);
    AuthorizeExactly(raw, b, w, clock);
    forall kind, value | AtomAllows(a, v, clock)(kind, value)
      ensures AtomAllows(b, w, clock)(kind, value)
    {
      AtomGrows(kind, value, a, v, b, w, clock);
    }
    HoldsMonotone(Compile(raw).value, AtomAllows(a, v, clock), AtomAllows(b, w, clock));
  }

  // A revoked token is refused whatever else the actor holds.
  lemma RevocationWins(kind: AtomKind, value: string, actor: ActorDefinition, view: ActorView, clock: Clock, rule: string)
    requires !kind.Temporal? && rule in actor.revocationRules + view.revocationRules
    requires NormalizeToken(rule) == NormalizeToken(value)
    ensures EvalAuth(Atom(kind, value), actor, view, clock) == AuthResult(Deny, Revoked)
  {
  }

  // ----- single requirements

  predicate IsToken(kind: AtomKind) { kind in {Role, Capability, Grant, Delegation, Authority} }

  // Some token the actor holds, or receives by delegation, meets the requirement, bare or with its kind in front;
  // the latter only if no rule of the actor's definition revokes that form.
  ghost predicate Shows(kind: AtomKind, value: string, actor: ActorDefinition) {
    var tagged := if kind.Authority? then value else KindName(kind) + ":" + value;
    exists c :: c in Candidates(actor)
                && (TokensAgree(c, value) || (TokensAgree(c, tagged) && !Revokes(actor.revocationRules, NormalizeToken(tagged))))
  }

  // A token is granted exactly when nothing revokes it and the actor shows it or the runtime view holds it.
  lemma TokenExactly(kind: AtomKind, value: string, actor: ActorDefinition, view: ActorView, clock: Clock)
    requires IsToken(kind)
    ensures EvalAuth(Atom(kind, value), actor, view, clock).decision == Allow
        <==> !AtomRevoked(kind, value, actor.revocationRules + view.revocationRules)
             && (Shows(kind, value, actor) || InView(value, view))
  {
    hide NormalizeToken, Candidates, TokensAgree, InView, KindName;
    if !AtomRevoked(kind, value, actor.revocationRules + view.revocationRules) {
      NotRevokedByDefinition(kind, value, actor, view);
    }
  }

  lemma NotRevokedByDefinition(kind: AtomKind, value: string, actor: ActorDefinition, view: ActorView)
    requires !AtomRevoked(kind, value, actor.revocationRules + view.revocationRules)
    ensures !Revokes(actor.revocationRules, NormalizeToken(value))
  {
    hide NormalizeToken, KindName;
    assert forall rule :: rule in actor.revocationRules ==> rule in actor.revocationRules + view.revocationRules;
  }

  // Holding a token is enough, unless it is revoked.
  lemma HoldingSuffices(kind: AtomKind, value: string, actor: ActorDefinition, view: ActorView, clock: Clock)
    requires IsToken(kind) && value in actor.roles + actor.capabilities + actor.credentials
    requires !AtomRevoked(kind, value, actor.revocationRules + view.revocationRules)
    ensures EvalAuth(Atom(kind, value), actor, view, clock).decision == Allow
  {
    TokenExactly(kind, value, actor, view, clock);
    assert value in Candidates(actor) && TokensAgree(value, value);
    hide NormalizeToken, Candidates, TokensAgree, InView, KindName, AtomRevoked;
  }

  predicate Covers(granted: string, required: string) { granted == required || StartsWith(required, granted + ".") }

  // What a covered scope covers is covered.
  lemma CoversTransitive(a: string, b: string, c: string)
    requires Covers(a, b) && Covers(b, c)
    ensures Covers(a, c)
  {
    if a != b && b != c {
      assert a + "." <= b <= b + "." <= c;
    }
  }

  // A granted scope reaches every scope below it, and never one above it.
  lemma ScopeReachesDown(value: string, granted: string, actor: ActorDefinition, view: ActorView, clock: Clock)
    requires view.scope == Some(granted) && !AtomRevoked(Scope, value, actor.revocationRules + view.revocationRules)
    ensures EvalAuth(Atom(Scope, value), actor, view, clock).decision == Allow
        <==> Covers(granted, value) || NormalizeToken(granted) == NormalizeToken(value)
    ensures value != granted && Covers(value, granted) && NormalizeToken(granted) != NormalizeToken(value)
        ==> EvalAuth(Atom(Scope, value), actor, view, clock) == AuthResult(Deny, ScopeExpansion)
  {
    hide NormalizeToken, AtomRevoked;
    if value != granted && Covers(value, granted) {
      assert |value| < |granted|;
    }
  }
}
