/** Reconciling extracted facts: one claim a group, ranked by source precedence, accepted only where all agree. */
module Reconciliation {
  import opened Sorting

  datatype Status = Candidate | Accepted | OtherStatus(name: string)

  datatype ConflictStatus = NoConflict | Unresolved | OtherConflict(name: string)

  // The value is known by its fingerprint, which is all that reconciliation compares.
  datatype Fact = Fact(
    factId: string,
    kind: string,
    id: string,
    claim: string,
    fingerprint: string,
    evidence: string,
    status: Status,
    conflict: ConflictStatus)

  datatype Key = Key(kind: string, id: string, claim: string)

  function KeyOf(f: Fact): Key { Key(f.kind, f.id, f.claim) }

  // ----- first-seen order

  function FirstSeen<T(==)>(s: seq<T>): seq<T> {
    if s == [] then []
    else
      var seen, x := FirstSeen(s[..|s| - 1]), s[|s| - 1];
      if x in seen then seen else seen + [x]
  }

  lemma {:induction false} FirstSeenExactly<T>(s: seq<T>)
    ensures forall x :: x in FirstSeen(s) <==> x in s
    ensures Distinct(FirstSeen(s))
  {
    if s != [] {
      var init, x := s[..|s| - 1], s[|s| - 1];
      FirstSeenExactly(init);
      assert s == init + [x];
    }
  }

  // ----- grouping

  function KeyList(facts: seq<Fact>): (ks: seq<Key>)
    ensures |ks| == |facts|
    ensures forall i :: 0 <= i < |facts| ==> ks[i] == KeyOf(facts[i])
  {
    if facts == [] then [] else KeyList(facts[..|facts| - 1]) + [KeyOf(facts[|facts| - 1])]
  }

  // The groups' keys, in the order they first appear.
  function Keys(facts: seq<Fact>): seq<Key> { FirstSeen(KeyList(facts)) }

  // The facts of one group, in order of arrival.
  function Members(facts: seq<Fact>, k: Key): seq<Fact> {
    if facts == [] then []
    else
      var last := facts[|facts| - 1];
      Members(facts[..|facts| - 1], k) + (if KeyOf(last) == k then [last] else [])
  }

  lemma {:induction false} MembersExactly(facts: seq<Fact>, k: Key)
    ensures forall f :: f in Members(facts, k) <==> f in facts && KeyOf(f) == k
  {
    if facts != [] {
      MembersExactly(facts[..|facts| - 1], k);
      assert facts == facts[..|facts| - 1] + [facts[|facts| - 1]];
    }
  }

  lemma KeysExactly(facts: seq<Fact>)
    ensures forall k :: k in Keys(facts) <==> Members(facts, k) != []
    ensures Distinct(Keys(facts))
  {
    FirstSeenExactly(KeyList(facts));
    forall k
      ensures k in Keys(facts) <==> Members(facts, k) != []
    {
      MembersExactly(facts, k);
      if k in KeyList(facts) {
        var i :| 0 <= i < |facts| && KeyList(facts)[i] == k;
        assert facts[i] in Members(facts, k);
      }
      if Members(facts, k) != [] {
        var f := Members(facts, k)[0];
        assert f in Members(facts, k);
        var i :| 0 <= i < |facts| && facts[i] == f;
        assert KeyList(facts)[i] == k;
      }
    }
  }

  lemma OneMoreFact(facts: seq<Fact>, i: nat)
    requires i < |facts|
    ensures var before, after, k := facts[..i], facts[..i + 1], KeyOf(facts[i]);
      && Keys(after) == (if k in Keys(before) then Keys(before) else Keys(before) + [k])
      && forall j :: Members(after, j) == Members(before, j) + if k == j then [facts[i]] else []
  {
    var after := facts[..i + 1];
    assert after[..i] == facts[..i];
    assert KeyList(after)[..i] == KeyList(facts[..i]);
  }

  lemma NoFacts()
    ensures Keys([]) == [] && forall k :: Members([], k) == []
  {
  }

  // A dict of groups, and its keys in insertion order.
  method GroupFacts(facts: seq<Fact>) returns (keys: seq<Key>, groups: map<Key, seq<Fact>>)
    ensures keys == Keys(facts)
    ensures forall k :: k in keys <==> k in groups
    ensures forall k :: k in groups ==> groups[k] == Members(facts, k)
  {
    hide Keys, Members;
    NoFacts();
    keys, groups := [], map[];
    for i := 0 to |facts|
      invariant keys == Keys(facts[..i])
      invariant forall k :: k in keys <==> k in groups
      invariant forall k :: k in groups ==> groups[k] == Members(facts[..i], k)
      invariant forall k :: k !in groups ==> Members(facts[..i], k) == []
    {
      var fact := facts[i];
      var key := KeyOf(fact);
      OneMoreFact(facts, i);
      if key !in groups {
        groups := groups[key := []];
        keys := keys + [key];
      }
      groups := groups[key := groups[key] + [fact]];
    }
    assert facts[..|facts|] == facts;
  }

  // ----- agreement

  function Fingerprints(facts: seq<Fact>): (ps: seq<string>)
    ensures |ps| == |facts|
    ensures forall i :: 0 <= i < |facts| ==> ps[i] == facts[i].fingerprint
  {
    if facts == [] then [] else Fingerprints(facts[..|facts| - 1]) + [facts[|facts| - 1].fingerprint]
  }

  method DistinctValues(facts: seq<Fact>) returns (seen: seq<string>)
    ensures seen == FirstSeen(Fingerprints(facts))
  {
    seen := [];
    var fingerprints: set<string> := {};
    for i := 0 to |facts|
      invariant seen == FirstSeen(Fingerprints(facts[..i]))
      invariant forall p :: p in fingerprints <==> p in seen
    {
      var fp := facts[i].fingerprint;
      assert facts[..i + 1][..i] == facts[..i];
      assert Fingerprints(facts[..i + 1])[..i] == Fingerprints(facts[..i]);
      if fp !in fingerprints {
        fingerprints := fingerprints + {fp};
        seen := seen + [fp];
      }
    }
    assert facts[..|facts|] == facts;
  }

  ghost predicate Agree(facts: seq<Fact>) {
    forall f, g :: f in facts && g in facts ==> f.fingerprint == g.fingerprint
  }

  predicate Conflicted(facts: seq<Fact>) { |FirstSeen(Fingerprints(facts))| > 1 }

  lemma ConflictedExactly(facts: seq<Fact>)
    ensures Conflicted(facts) <==> !Agree(facts)
  {
    var ps := Fingerprints(facts);
    var seen := FirstSeen(ps);
    FirstSeenExactly(ps);
    if Conflicted(facts) {
      assert seen[0] in ps && seen[1] in ps;
      var i :| 0 <= i < |ps| && ps[i] == seen[0];
      var j :| 0 <= j < |ps| && ps[j] == seen[1];
      assert facts[i] in facts && facts[j] in facts;
    } else {
      forall f, g | f in facts && g in facts
        ensures f.fingerprint == g.fingerprint
      {
        var i :| 0 <= i < |facts| && facts[i] == f;
        var j :| 0 <= j < |facts| && facts[j] == g;
        assert ps[i] in seen && ps[j] in seen;
      }
    }
  }

  // ----- ranking by precedence

  // The index of an evidence class; the last one where a class is listed twice, and past the end where it is not listed.
  function Rank(order: seq<string>, evidence: string): nat {
    if evidence !in order then |order| else LastIndex(order, evidence)
  }

  function LastIndex(order: seq<string>, x: string): (i: nat)
    requires x in order
    ensures i < |order| && order[i] == x && forall j :: i < j < |order| ==> order[j] != x
  {
    if order[|order| - 1] == x then |order| - 1 else LastIndex(order[..|order| - 1], x)
  }

  predicate RankLeq(order: seq<string>, f: Fact, g: Fact) {
    var a, b := Rank(order, f.evidence), Rank(order, g.evidence);
    a < b || (a == b && StringLeq(f.factId, g.factId))
  }

  function ByRank(order: seq<string>): Order<Fact> { (f, g) => RankLeq(order, f, g) }

  function Ranked(facts: seq<Fact>, order: seq<string>): seq<Fact> { Sort(ByRank(order), facts) }

  lemma RankIsOrder(order: seq<string>)
    ensures Total(ByRank(order)) && Transitive(ByRank(order))
  {
    forall f: Fact, g: Fact
      ensures RankLeq(order, f, g) || RankLeq(order, g, f)
    {
      StringLeqTotal(f.factId, g.factId);
    }
    forall f: Fact, g: Fact, h: Fact | RankLeq(order, f, g) && RankLeq(order, g, h)
      ensures RankLeq(order, f, h)
    {
      if StringLeq(f.factId, g.factId) && StringLeq(g.factId, h.factId) {
        StringLeqTransitive(f.factId, g.factId, h.factId);
      }
    }
  }

  ghost predicate DistinctIds(facts: seq<Fact>) {
    forall i, j :: 0 <= i < j < |facts| ==> facts[i].factId != facts[j].factId
  }

  ghost predicate Least(order: seq<string>, facts: seq<Fact>, f: Fact) {
    f in facts && forall g :: g in facts ==> RankLeq(order, f, g)
  }

  lemma HeadIsLeastRanked(facts: seq<Fact>, order: seq<string>)
    requires facts != []
    ensures Ranked(facts, order) != [] && Least(order, facts, Ranked(facts, order)[0])
    ensures multiset(Ranked(facts, order)) == multiset(facts)
  {
    var leq := ByRank(order);
    RankIsOrder(order);
    SortPermutes(leq, facts);
    SortSorts(leq, facts);
    var r := Sort(leq, facts);
    SameElements(r, facts);
    forall g | g in facts
      ensures RankLeq(order, r[0], g)
    {
      HeadIsLeast(leq, r, g);
      assert leq(r[0], g);
    }
  }

  lemma LeastIsUnique(order: seq<string>, facts: seq<Fact>, f: Fact, g: Fact)
    requires DistinctIds(facts) && Least(order, facts, f) && Least(order, facts, g)
    ensures f == g
  {
    StringLeqAntisymmetric(f.factId, g.factId);
    SameIdSameFact(facts, f, g);
  }

  lemma SameIdSameFact(facts: seq<Fact>, f: Fact, g: Fact)
    requires DistinctIds(facts) && f in facts && g in facts && f.factId == g.factId
    ensures f == g
  {
  }

  lemma {:induction false} MembersDistinct(facts: seq<Fact>, k: Key)
    requires DistinctIds(facts)
    ensures DistinctIds(Members(facts, k))
  {
    if facts != [] {
      var init, last := facts[..|facts| - 1], facts[|facts| - 1];
      MembersDistinct(init, k);
      MembersExactly(init, k);
      forall f | f in Members(init, k)
        ensures f.factId != last.factId
      {
        var i :| 0 <= i < |init| && init[i] == f;
        assert facts[i] == f;
      }
    }
  }

  // The losers of a group are all its facts but the head.
  lemma Losers(facts: seq<Fact>, order: seq<string>, f: Fact)
    requires facts != [] && DistinctIds(facts)
    ensures Ranked(facts, order) != []
    ensures f in Ranked(facts, order)[1..] <==> f in facts && !Least(order, facts, f)
  {
    HeadIsLeastRanked(facts, order);
    var r := Ranked(facts, order);
    SameElements(r, facts);
    TailLosesHead(r);
    assert f in r[1..] <==> multiset(r[1..])[f] > 0;
    DistinctCounts(facts, f);
    if f in facts && Least(order, facts, f) {
      LeastIsUnique(order, facts, f, r[0]);
    }
  }

  // ----- the verdict

  function Accept(f: Fact): (r: Fact)
    ensures KeyOf(r) == KeyOf(f)
  {
    f.(status := Accepted, conflict := NoConflict)
  }

  // Only a review hint.
  function Hint(f: Fact): (r: Fact)
    ensures KeyOf(r) == KeyOf(f)
  {
    f.(status := Candidate, conflict := Unresolved)
  }

  datatype Report = Report(
    preferred: seq<Fact>,
    ranked: seq<Fact>,
    accepted: seq<Fact>,
    superseded: seq<string>,
    rejected: seq<string>)

  function Ids(facts: seq<Fact>): (ids: seq<string>)
    ensures forall x :: x in ids <==> exists f :: f in facts && f.factId == x
  {
    if facts == [] then []
    else
      assert forall f :: f in facts <==> f in facts[..|facts| - 1] || f == facts[|facts| - 1];
      Ids(facts[..|facts| - 1]) + [facts[|facts| - 1].factId]
  }

  // What one group adds to the report.
  function Judge(r: Report, group: seq<Fact>, order: seq<string>): Report {
    var ranked := Ranked(group, order);
    if ranked == [] then r
    else if Conflicted(group) then
      Report(r.preferred + [Hint(ranked[0])], r.ranked + ranked, r.accepted,
             r.superseded + Ids(ranked[1..]), r.rejected + Ids(ranked[1..]))
    else
      Report(r.preferred + [Accept(ranked[0])], r.ranked + ranked, r.accepted + [Accept(ranked[0])],
             r.superseded, r.rejected)
  }

  function Verdict(facts: seq<Fact>, order: seq<string>, keys: seq<Key>): Report {
    if keys == [] then Report([], [], [], [], [])
    else
      var last := |keys| - 1;
      Judge(Verdict(facts, order, keys[..last]), Members(facts, keys[last]), order)
  }

  function Reconciled(facts: seq<Fact>, order: seq<string>): Report { Verdict(facts, order, Keys(facts)) }

  method RejectLosers(losers: seq<Fact>, supersededBefore: seq<string>, rejectedBefore: seq<string>)
    returns (superseded: seq<string>, rejected: seq<string>)
    ensures superseded == supersededBefore + Ids(losers) && rejected == rejectedBefore + Ids(losers)
  {
    superseded, rejected := supersededBefore, rejectedBefore;
    for j := 0 to |losers|
      invariant superseded == supersededBefore + Ids(losers[..j]) && rejected == rejectedBefore + Ids(losers[..j])
    {
      assert losers[..j + 1][..j] == losers[..j];
      superseded := superseded + [losers[j].factId];
      rejected := rejected + [losers[j].factId];
    }
    assert losers[..|losers|] == losers;
  }

  method Reconcile(facts: seq<Fact>, order: seq<string>) returns (r: Report)
    ensures r == Reconciled(facts, order)
  {
    hide FirstSeen, Fingerprints, Keys, KeyList, Members, Sort, Least, Ids, Distinct;
    var keys, groups := GroupFacts(facts);
    KeysExactly(facts);
    var preferred: seq<Fact>, rankedAll: seq<Fact>, accepted: seq<Fact> := [], [], [];
    var superseded: seq<string>, rejected: seq<string> := [], [];
    for i := 0 to |keys|
      invariant Report(preferred, rankedAll, accepted, superseded, rejected) == Verdict(facts, order, keys[..i])
    {
      var group := groups[keys[i]];
      var distinct := DistinctValues(group);
      var ranked := Sort(ByRank(order), group);
      HeadIsLeastRanked(group, order);
      assert keys[..i + 1][..i] == keys[..i];
      rankedAll := rankedAll + ranked;
      if |distinct| > 1 {
        preferred := preferred + [Hint(ranked[0])];
        superseded, rejected := RejectLosers(ranked[1..], superseded, rejected);
      } else {
        preferred := preferred + [Accept(ranked[0])];
        accepted := accepted + [Accept(ranked[0])];
      }
    }
    assert keys[..|keys|] == keys;
    r := Report(preferred, rankedAll, accepted, superseded, rejected);
  }
}
