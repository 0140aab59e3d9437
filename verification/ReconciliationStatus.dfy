/** How a verdict is told: the status a fact is given, the claim it belongs to, and its place in the ranking. */
module ReconciliationStatus {
  import opened Sorting
  import opened Reconciliation
  import opened ReconciliationLaws

  // The same fact but for its status and conflict.
  ghost predicate SameButStatus(x: Fact, f: Fact) {
    && x.factId == f.factId && x.kind == f.kind && x.id == f.id && x.claim == f.claim
    && x.fingerprint == f.fingerprint && x.evidence == f.evidence
  }

  ghost predicate IsOneOf(x: Fact, facts: seq<Fact>) { exists f :: f in facts && SameButStatus(x, f) }

  lemma RankedHead(facts: seq<Fact>, order: seq<string>, k: Key)
    requires Ranked(Members(facts, k), order) != []
    ensures var head := Ranked(Members(facts, k), order)[0];
      head in facts && KeyOf(head) == k
  {
    hide Ranked, Members, Least;
    var group := Members(facts, k);
    if group == [] {
      EmptyRanks(order);
    }
    HeadIsLeastRanked(group, order);
    LeastIsMember(order, group, Ranked(group, order)[0]);
    MembersExactly(facts, k);
  }

  // An accepted fact is one of the facts, marked accepted and free of conflict, and a preferred one that is not accepted
  // is marked a candidate and unresolved; nothing else of a fact is changed.
  lemma StatusTells(facts: seq<Fact>, order: seq<string>, x: Fact)
    ensures var r := Reconciled(facts, order);
      && (x in r.accepted ==> x in r.preferred && IsOneOf(x, facts))
      && (x in r.preferred ==> IsOneOf(x, facts))
      && (x in r.preferred ==> if x in r.accepted then x.status == Accepted && x.conflict == NoConflict
                               else x.status == Candidate && x.conflict == Unresolved)
  {
    hide Verdict, Members, Ranked, Conflicted, Keys;
    VerdictAdds(facts, order, Keys(facts));
    forall k | k in Keys(facts) && AcceptedFor(facts, order, k, x)
      ensures IsOneOf(x, facts) && x.status == Accepted && x.conflict == NoConflict
    {
      RankedHead(facts, order, k);
      assert SameButStatus(x, Ranked(Members(facts, k), order)[0]);
    }
    forall k | k in Keys(facts) && HintedFor(facts, order, k, x)
      ensures IsOneOf(x, facts) && x.status == Candidate && x.conflict == Unresolved
    {
      RankedHead(facts, order, k);
      assert SameButStatus(x, Ranked(Members(facts, k), order)[0]);
    }
  }

  // ----- claims

  // Two facts belong to one claim when they agree in subject kind, subject and predicate, and in nothing less.
  lemma OneClaimExactly(f: Fact, g: Fact)
    ensures KeyOf(f) == KeyOf(g) <==> f.kind == g.kind && f.id == g.id && f.claim == g.claim
  {
  }

  // ----- precedence

  // i is the last place of the evidence class in the order; past the end where it is not listed.
  ghost predicate StandsAt(order: seq<string>, evidence: string, i: nat) {
    && i <= |order| && (i < |order| ==> order[i] == evidence)
    && (i == |order| ==> evidence !in order)
    && forall j :: i < j < |order| ==> order[j] != evidence
  }

  lemma RankIsPlace(order: seq<string>, evidence: string, i: nat)
    requires StandsAt(order, evidence, i)
    ensures Rank(order, evidence) == i
  {
    if i < |order| {
      assert order[i] in order;
      var k := LastIndex(order, evidence);
      assert !(k < i) && !(i < k);
    }
  }

  // The class listed earlier comes first, an unlisted class last, and within a class the smaller identifier.
  lemma PrecedenceDecides(order: seq<string>, f: Fact, g: Fact, i: nat, j: nat)
    requires StandsAt(order, f.evidence, i) && StandsAt(order, g.evidence, j)
    ensures i < j ==> RankLeq(order, f, g) && !RankLeq(order, g, f)
    ensures i == j ==> (RankLeq(order, f, g) <==> StringLeq(f.factId, g.factId))
  {
    RankIsPlace(order, f.evidence, i);
    RankIsPlace(order, g.evidence, j);
    hide Rank, StringLeq, StandsAt;
  }

  // The candidates of a group are listed in that order.
  lemma RankedInOrder(facts: seq<Fact>, order: seq<string>, i: nat, j: nat)
    requires i < j < |Ranked(facts, order)|
    ensures RankLeq(order, Ranked(facts, order)[i], Ranked(facts, order)[j])
  {
    RankIsOrder(order);
    SortSorts(ByRank(order), facts);
    hide Sort, RankLeq;
    assert ByRank(order)(Ranked(facts, order)[i], Ranked(facts, order)[j]);
  }
}
