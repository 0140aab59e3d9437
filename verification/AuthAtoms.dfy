/** What single requirements demand: times, attributes, and the tokens an actor can show. */
module AuthAtoms {
  import opened Wrappers
  import opened Text
  import opened AuthSyntax
  import opened AuthEval

  // ----- time

  // Two readings of one bound, the second no earlier than the first.
  ghost predicate Later(bound: string, c: Clock, d: Clock) {
    && c.parse == d.parse && c.parse(bound).Some?
    && c.now.Some? && c.now.value.Some? && d.now.Some? && d.now.value.Some?
    && c.now.value.value <= d.now.value.value
  }

  ghost function At(op: TemporalOp, bound: string, actor: ActorDefinition, view: ActorView, clock: Clock): AuthResult {
    EvalAuth(Atom(Temporal(op), bound), actor, view, clock)
  }

  // What has run out stays so, and what has begun goes on.
  lemma TimeRunsOneWay(op: TemporalOp, bound: string, actor: ActorDefinition, view: ActorView, c: Clock, d: Clock)
    requires Later(bound, c, d)
    ensures op != After && At(op, bound, actor, view, c).decision != Allow ==> At(op, bound, actor, view, d).decision != Allow
    ensures op == After && At(op, bound, actor, view, c).decision == Allow ==> At(op, bound, actor, view, d).decision == Allow
  {
  }

  // On readable times `before` and `after` are strict, `expires` allows exactly where `after` refuses, and a refusal is
  // an expiry.
  lemma TimesExactly(op: TemporalOp, bound: string, actor: ActorDefinition, view: ActorView, clock: Clock)
    requires clock.parse(bound).Some? && clock.now.Some? && clock.now.value.Some?
    ensures var (limit, now) := (clock.parse(bound).value, clock.now.value.value);
      && (At(Before, bound, actor, view, clock).decision == Allow <==> now < limit)
      && (At(After, bound, actor, view, clock).decision == Allow <==> limit < now)
      && (now == limit ==> At(Expires, bound, actor, view, clock).decision == Allow)
    ensures At(Expires, bound, actor, view, clock).decision == Allow <==> At(After, bound, actor, view, clock).decision != Allow
    ensures At(Before, bound, actor, view, clock).decision == Allow ==> At(Expires, bound, actor, view, clock).decision == Allow
    ensures At(op, bound, actor, view, clock) in {AuthResult(Allow, Authorized), AuthResult(Deny, Expired)}
  {
  }

  // A bound or a present that cannot be read leaves it undecided; with a bound and no present it is denied.
  lemma TimesUnread(op: TemporalOp, bound: string, actor: ActorDefinition, view: ActorView, clock: Clock)
    ensures At(op, bound, actor, view, clock) == AuthResult(Indeterminate, UnsupportedAuthorization)
        <==> clock.parse(bound).None? || (clock.now.Some? && clock.now.value.None?)
    ensures At(op, bound, actor, view, clock) == AuthResult(Deny, MissingNow) <==> clock.parse(bound).Some? && clock.now.None?
  {
  }

  // Time alone leaves a requirement undecided, and who asks makes no difference to it.
  lemma TimeIsImpersonal(kind: AtomKind, value: string, actor: ActorDefinition, view: ActorView,
                         actor': ActorDefinition, view': ActorView, clock: Clock)
    ensures kind.Temporal? ==> EvalAuth(Atom(kind, value), actor, view, clock) == EvalAuth(Atom(kind, value), actor', view', clock)
    ensures EvalAuth(Atom(kind, value), actor, view, clock).decision == Indeterminate ==> kind.Temporal?
  {
    hide Discharges, AtomRevoked, InView, NormalizeToken;
  }

  // ----- policy and tenant

  // The runtime's attribute must be the required one, up to spelling; without one, the actor must show it, or hold it as
  // a credential, with its kind in front.
  lemma AttributesExactly(value: string, actor: ActorDefinition, view: ActorView, clock: Clock)
    ensures !AtomRevoked(Policy, value, actor.revocationRules + view.revocationRules) ==>
      (EvalAuth(Atom(Policy, value), actor, view, clock).decision == Allow
       <==> if view.policy.Some? then NormalizeToken(view.policy.value) == NormalizeToken(value)
            else Discharges("policy:" + value, actor) || "policy:" + value in view.credentials)
    ensures !AtomRevoked(Tenant, value, actor.revocationRules + view.revocationRules) ==>
      (EvalAuth(Atom(Tenant, value), actor, view, clock).decision == Allow
       <==> if view.tenant.Some? then NormalizeToken(view.tenant.value) == NormalizeToken(value)
            else Discharges("tenant:" + value, actor) || "tenant:" + value in view.credentials)
    ensures !AtomRevoked(Scope, value, actor.revocationRules + view.revocationRules) && view.scope.None? ==>
      (EvalAuth(Atom(Scope, value), actor, view, clock).decision == Allow
       <==> Discharges("scope:" + value, actor) || "scope:" + value in view.credentials)
  {
    hide Discharges, AtomRevoked, NormalizeToken, StartsWith, EvalAttribute, KindName;
    TagsSpelled(value);
    AttributeByKind(Policy, value, view.policy, actor, view);
    AttributeByKind(Tenant, value, view.tenant, actor, view);
    AttributeByKind(Scope, value, view.scope, actor, view);
  }

  lemma TagsSpelled(value: string)
    ensures KindName(Policy) + ":" + value == "policy:" + value
    ensures KindName(Tenant) + ":" + value == "tenant:" + value
    ensures KindName(Scope) + ":" + value == "scope:" + value
  {
  }

  lemma AttributeByKind(kind: AtomKind, value: string, actual: Option<string>, actor: ActorDefinition, view: ActorView)
    ensures actual.None? ==>
      (EvalAttribute(kind, value, actual, actor, view).decision == Allow
       <==> Discharges(KindName(kind) + ":" + value, actor) || KindName(kind) + ":" + value in view.credentials)
    ensures actual.Some? && !kind.Scope? ==>
      (EvalAttribute(kind, value, actual, actor, view).decision == Allow
       <==> NormalizeToken(actual.value) == NormalizeToken(value))
  {
    hide Discharges, NormalizeToken, StartsWith, KindName;
  }

  // A revocation names the bare value, or the value with its kind; nothing else revokes it.
  lemma RevokedExactly(kind: AtomKind, value: string, actor: ActorDefinition, view: ActorView, clock: Clock)
    requires !kind.Temporal?
    ensures EvalAuth(Atom(kind, value), actor, view, clock) == AuthResult(Deny, Revoked)
        <==> exists rule :: rule in actor.revocationRules + view.revocationRules
                            && NormalizeToken(rule) in {NormalizeToken(value), NormalizeToken(KindName(kind) + ":" + value)}
                            && (kind.Role? ==> NormalizeToken(rule) == NormalizeToken(value))
  {
    var rules := actor.revocationRules + view.revocationRules;
    hide Discharges, InView, NormalizeToken, StartsWith, KindName;
  }

  // ----- what an actor can show

  // An authority, a delegated target, and a token the runtime holds each suffice, as a held role does.
  lemma EachSourceSuffices(kind: AtomKind, value: string, actor: ActorDefinition, view: ActorView, clock: Clock)
    requires IsToken(kind) && !AtomRevoked(kind, value, actor.revocationRules + view.revocationRules)
    requires || (actor.authoritySource == Some(value) && value != "")
             || (exists rule, t :: rule in actor.delegationRules && t in DelegationTargets(rule)
                                   && NormalizeToken(t) == NormalizeToken(value))
             || value in view.roles + view.capabilities + view.credentials + view.grants
    ensures EvalAuth(Atom(kind, value), actor, view, clock).decision == Allow
  {
    hide NormalizeToken, DelegationTargets, AtomRevoked, KindName, TokensAgree;
    TokenExactly(kind, value, actor, view, clock);
    SecondComparisonIsIdle(value, value);
    if rule, t :| rule in actor.delegationRules && t in DelegationTargets(rule) && NormalizeToken(t) == NormalizeToken(value) {
      TargetsWithin(actor.delegationRules, t);
      SecondComparisonIsIdle(t, value);
      assert t in Candidates(actor);
    }
  }

  // ----- tokens

  const TOKEN_PREFIXES: seq<string> := ["role:", "authz:", "capability:"]

  predicate Unprefixed(w: string) {
    !StartsWith(Lower(w), "role:") && !StartsWith(Lower(w), "authz:") && !StartsWith(Lower(w), "capability:")
  }

  // A token on one line is known by its lower-case letters; one leading prefix of the three, in whatever case, is left off.
  lemma TokensAreSpelledFreely(p: string, w: string)
    requires Lower(p) in TOKEN_PREFIXES && w != "" && Tight(w) && '\n' !in w && Unprefixed(w)
    ensures NormalizeToken(w) == Lower(w) && NormalizeToken(p + w) == Lower(w)
  {
    hide *;
    PrefixIsTight(p, w);
    OneLine(w);
    OneLine(p + w);
    NothingDropped(w);
    PrefixDropped(p, w);
    TightStrips(w);
  }

  lemma OneLine(t: string)
    requires Tight(t) && '\n' !in t
    ensures NormalizeToken(t) == Lower(Strip(DropPrefix(t, TOKEN_PREFIXES)))
  {
    TightStrips(t);
    hide Strip, Lower, DropPrefix, Tight;
  }

  lemma NothingDropped(w: string)
    requires Unprefixed(w)
    ensures DropPrefix(w, TOKEN_PREFIXES) == w
  {
    hide DropPrefix, StartsWith, Lower;
    NoneToDrop(w, TOKEN_PREFIXES);
  }

  lemma {:induction false} NoneToDrop(t: string, ps: seq<string>)
    requires forall q :: q in ps ==> !StartsWith(Lower(t), q)
    ensures DropPrefix(t, ps) == t
    decreases |ps|
  {
    hide Lower, StartsWith;
    if ps != [] {
      assert ps[0] in ps && forall q :: q in ps[1..] ==> q in ps;
      NoneToDrop(t, ps[1..]);
    }
  }

  lemma PrefixIsTight(p: string, w: string)
    requires Lower(p) in TOKEN_PREFIXES && w != "" && Tight(w) && '\n' !in w
    ensures Tight(p + w) && '\n' !in p + w
  {
    assert |p| == |Lower(p)| > 0;
    forall i | 0 <= i < |p|
      ensures !IsSpace(p[i]) && p[i] != '\n'
    {
      LowerKeeps(p[i]);
      PrefixHasNoSpace(Lower(p), i);
      assert Lower(p)[i] == LowerChar(p[i]);
    }
    hide Lower, IsSpace, LowerChar;
    assert (p + w)[0] == p[0] && (p + w)[|p + w| - 1] == w[|w| - 1];
  }

  lemma PrefixHasNoSpace(p: string, i: nat)
    requires p in TOKEN_PREFIXES && i < |p|
    ensures !IsSpace(p[i]) && p[i] != '\n'
  {
  }

  lemma PrefixDropped(p: string, w: string)
    requires Lower(p) in TOKEN_PREFIXES && w != ""
    ensures DropPrefix(p + w, TOKEN_PREFIXES) == w
  {
    LowerJoin(p, w);
    var t, q := p + w, Lower(p);
    assert t[|p|..] == w && |p| == |q| && q <= Lower(t);
    hide Lower, DropPrefix;
    OnlyOnePrefix(q, Lower(t));
    DropFound(t, q, TOKEN_PREFIXES);
  }

  lemma OnlyOnePrefix(q: string, l: string)
    requires q in TOKEN_PREFIXES && q <= l
    ensures forall r :: r in TOKEN_PREFIXES && r != q ==> !StartsWith(l, r)
  {
    assert l[0] == q[0];
  }

  lemma {:induction false} DropFound(t: string, p: string, ps: seq<string>)
    requires p in ps && StartsWith(Lower(t), p) && |t| > |p|
    requires forall q :: q in ps && q != p ==> !StartsWith(Lower(t), q)
    ensures DropPrefix(t, ps) == t[|p|..]
    decreases |ps|
  {
    hide Lower, StartsWith;
    if ps[0] != p {
      assert ps[0] in ps && forall q :: q in ps[1..] ==> q in ps;
      DropFound(t, p, ps[1..]);
    }
  }

  // Over several lines nothing is left off.
  lemma LinesAreKept(token: string)
    requires '\n' in Strip(token)
    ensures NormalizeToken(token) == Lower(Strip(token))
  {
    hide Strip, Lower, DropPrefix;
  }

  lemma {:induction false} DropAlike(t: string, u: string, ps: seq<string>)
    requires Lower(t) == Lower(u)
    ensures Lower(DropPrefix(t, ps)) == Lower(DropPrefix(u, ps))
    decreases |ps|
  {
    hide Lower;
    assert |t| == |Lower(t)| == |u|;
    if ps != [] {
      if StartsWith(Lower(t), ps[0]) && |t| > |ps[0]| {
        LowerSlices(t, |ps[0]|);
        LowerSlices(u, |ps[0]|);
      } else {
        DropAlike(t, u, ps[1..]);
      }
    }
  }

  lemma LineBreaksAlike(t: string, u: string)
    requires Lower(t) == Lower(u)
    ensures '\n' in t ==> '\n' in u
  {
    if '\n' in t {
      var i :| 0 <= i < |t| && t[i] == '\n';
      assert Lower(t)[i] == LowerChar('\n') && |u| == |Lower(u)|;
      LowerKeeps(u[i]);
      LowerKeeps('\n');
      assert u[i] in u;
    }
  }

  lemma SpacesAlike(t: string, u: string)
    requires Lower(t) == Lower(u)
    ensures Lower(Strip(t)) == Lower(Strip(u))
  {
    hide Lower, Strip;
    LowerStrips(t);
    LowerStrips(u);
  }

  // Two tokens alike up to letter case and outer spaces are one, so the second of the source's two comparisons
  // never decides.
  lemma SecondComparisonIsIdle(candidate: string, auth: string)
    ensures Lower(Strip(candidate)) == Lower(Strip(auth)) ==> NormalizeToken(candidate) == NormalizeToken(auth)
    ensures TokensAgree(candidate, auth) <==> NormalizeToken(candidate) == NormalizeToken(auth)
  {
    hide Lower, Strip, DropPrefix;
    var t, u := Strip(candidate), Strip(auth);
    if Lower(t) == Lower(u) {
      LineBreaksAlike(t, u);
      LineBreaksAlike(u, t);
      DropAlike(t, u, TOKEN_PREFIXES);
      SpacesAlike(DropPrefix(t, TOKEN_PREFIXES), DropPrefix(u, TOKEN_PREFIXES));
    }
  }

  // ----- delegation rules

  const RULE_PREFIXES: set<string> := {"delegates:", "delegate:", "via:", "grant:", "from:", "to:"}

  // A rule with one of six prefixes names one target, the rest of it; spaces in front shift the cut, as the prefix is
  // found in the stripped rule but cut off the rule as given.
  lemma PrefixedRule(spaces: string, p: string, w: string)
    requires AllSpaces(spaces) && p in RULE_PREFIXES && (w == "" || !IsSpace(w[|w| - 1]))
    ensures DelegationTargets(spaces + (p + w)) == [NormalizeToken((spaces + (p + w))[|p|..])]
    ensures spaces == "" ==> DelegationTargets(spaces + (p + w)) == [NormalizeToken(w)]
  {
    var rule := spaces + (p + w);
    RuleIsTight(p, w);
    SpacesStrip(spaces, p + w);
    RulePrefixStays(p, w);
    assert (p + w)[|p|..] == w;
    hide NormalizeToken, Lower, Strip;
    PrefixOfRule(p, rule);
  }

  lemma {:induction false} SpacesStrip(spaces: string, t: string)
    requires AllSpaces(spaces) && Tight(t) && t != ""
    ensures Strip(spaces + t) == t
    decreases |spaces|
  {
    if spaces == "" {
      assert spaces + t == t;
      TightStrips(t);
    } else {
      assert (spaces + t)[1..] == spaces[1..] + t;
      SpacesStrip(spaces[1..], t);
      hide StripRight, IsSpace, Tight;
    }
  }

  lemma RuleIsTight(p: string, w: string)
    requires p in RULE_PREFIXES && (w == "" || !IsSpace(w[|w| - 1]))
    ensures Tight(p + w)
  {
    assert (p + w)[0] == p[0] && (p + w)[|p + w| - 1] == if w == "" then p[|p| - 1] else w[|w| - 1];
  }

  lemma RulePrefixStays(p: string, w: string)
    requires p in RULE_PREFIXES
    ensures p <= Lower(p + w)
  {
    hide Lower;
    LowerJoin(p, w);
    RulePrefixIsLower(p);
    assert Lower(p) == p;
  }

  lemma RulePrefixIsLower(p: string)
    requires p in RULE_PREFIXES
    ensures forall i :: 0 <= i < |p| ==> LowerChar(p[i]) == p[i]
  {
  }

  lemma PrefixOfRule(p: string, rule: string)
    requires p in RULE_PREFIXES && p <= Lower(Strip(rule))
    ensures DelegationPrefix(rule, DELEGATION_PREFIXES) == Some(p)
  {
    hide Lower, Strip, DelegationPrefix;
    OnlyOneRulePrefix(p, Lower(Strip(rule)));
    FindsPrefix(rule, p, DELEGATION_PREFIXES);
  }

  lemma OnlyOneRulePrefix(p: string, l: string)
    requires p in RULE_PREFIXES && p <= l
    ensures p in DELEGATION_PREFIXES && forall q :: q in DELEGATION_PREFIXES && q != p ==> !StartsWith(l, q)
  {
    assert l[0] == p[0];
    assert |p| > 8 ==> l[8] == p[8];
  }

  lemma {:induction false} FindsPrefix(rule: string, p: string, ps: seq<string>)
    requires p in ps && StartsWith(Lower(Strip(rule)), p)
    requires forall q :: q in ps && q != p ==> !StartsWith(Lower(Strip(rule)), q)
    ensures DelegationPrefix(rule, ps) == Some(p)
    decreases |ps|
  {
    hide Lower, Strip, StartsWith;
    if ps[0] != p {
      assert ps[0] in ps && forall q :: q in ps[1..] ==> q in ps;
      FindsPrefix(rule, p, ps[1..]);
    }
  }

  function Arrowed(parts: seq<string>): string
    requires parts != []
  {
    if |parts| == 1 then parts[0] else parts[0] + ("->" + Arrowed(parts[1..]))
  }

  lemma {:induction false} PartStands(w: string, rest: string, buf: string)
    requires '>' !in w && (rest == "" || ArrowAt(rest))
    ensures SplitArrows(w + rest, buf) == SplitArrows(rest, buf + w)
    decreases |w|
  {
    var s := w + rest;
    if w == [] {
      assert s == rest && buf + w == buf;
    } else {
      assert s[1..] == w[1..] + rest;
      assert !ArrowAt(s) by {
        if |w| > 1 {
          assert s[1] == w[1];
        } else if rest != "" {
          assert s[1] == rest[0];
        }
      }
      PartStands(w[1..], rest, buf + [w[0]]);
      assert buf + [w[0]] + w[1..] == buf + w;
    }
  }

  // A chain of arrows names every link.
  lemma {:induction false} ArrowsSplit(parts: seq<string>)
    requires parts != [] && forall w :: w in parts ==> '>' !in w
    ensures SplitArrows(Arrowed(parts), "") == parts
    decreases |parts|
  {
    var w := parts[0];
    if |parts| == 1 {
      assert w + "" == w;
      PartStands(w, "", "");
      assert "" + w == w && parts == [w];
    } else {
      var tail := "->" + Arrowed(parts[1..]);
      PartStands(w, tail, "");
      assert "" + w == w && tail[2..] == Arrowed(parts[1..]);
      ArrowsSplit(parts[1..]);
      assert parts == [w] + parts[1..];
    }
  }

  lemma ArrowedRule(parts: seq<string>)
    requires parts != [] && (forall w :: w in parts ==> '>' !in w)
    requires DelegationPrefix(Arrowed(parts), DELEGATION_PREFIXES).None?
    ensures var ts := DelegationTargets(Arrowed(parts));
      |ts| == |parts| && forall i :: 0 <= i < |parts| ==> ts[i] == NormalizeToken(parts[i])
  {
    hide NormalizeToken, DelegationPrefix, SplitArrows;
    ArrowsSplit(parts);
  }

  // ----- what is refused before evaluation

  lemma UncompiledIsUndecided(raw: string, actor: ActorDefinition, view: ActorView, clock: Clock)
    requires Compile(raw).Err?
    ensures Authorize(raw, actor, view, clock) == AuthResult(Indeterminate, UnsupportedAuthorization)
  {
    hide Compile;
  }
}
