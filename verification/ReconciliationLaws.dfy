/** What reconciliation promises: who is accepted, who is rejected, and that nothing else matters. */
module ReconciliationLaws {
  import opened Reconciliation
  import opened Sorting

  // ----- acceptance and rejection, said of the set of facts alone

  ghost predicate Disputed(s: set<Fact>, k: Key) {
    exists g, h :: g in s && h in s && KeyOf(g) == k && KeyOf(h) == k && g.fingerprint != h.fingerprint
  }

  // f comes first in its group.
  ghost predicate First(s: set<Fact>, order: seq<string>, f: Fact) {
    f in s && forall g :: g in s && KeyOf(g) == KeyOf(f) ==> RankLeq(order, f, g)
  }

  ghost predicate Stands(s: set<Fact>, order: seq<string>, f: Fact) {
    First(s, order, f) && !Disputed(s, KeyOf(f))
  }

  ghost predicate OnlyHinted(s: set<Fact>, order: seq<string>, f: Fact) {
    First(s, order, f) && Disputed(s, KeyOf(f))
  }

  ghost predicate Overruled(s: set<Fact>, order: seq<string>, f: Fact) {
    f in s && !First(s, order, f) && Disputed(s, KeyOf(f))
  }

  function SetOf(facts: seq<Fact>): set<Fact> { set f | f in facts }

  lemma DisputedIsConflicted(facts: seq<Fact>, k: Key)
    ensures Disputed(SetOf(facts), k) <==> Conflicted(Members(facts, k))
  {
    MembersExactly(facts, k);
    ConflictedExactly(Members(facts, k));
    hide Conflicted, Members;
  }

  lemma FirstIsLeast(facts: seq<Fact>, order: seq<string>, f: Fact)
    ensures First(SetOf(facts), order, f) <==> Least(order, Members(facts, KeyOf(f)), f)
  {
    MembersExactly(facts, KeyOf(f));
    hide RankLeq, Members;
  }

  // ----- group by group

  ghost predicate AcceptedFor(facts: seq<Fact>, order: seq<string>, k: Key, x: Fact) {
    var ranked := Ranked(Members(facts, k), order);
    ranked != [] && !Conflicted(Members(facts, k)) && x == Accept(ranked[0])
  }

  ghost predicate HintedFor(facts: seq<Fact>, order: seq<string>, k: Key, x: Fact) {
    var ranked := Ranked(Members(facts, k), order);
    ranked != [] && Conflicted(Members(facts, k)) && x == Hint(ranked[0])
  }

  ghost predicate RejectedFor(facts: seq<Fact>, order: seq<string>, k: Key, x: string) {
    var ranked := Ranked(Members(facts, k), order);
    ranked != [] && Conflicted(Members(facts, k)) && x in Ids(ranked[1..])
  }

  lemma JudgeAdds(r: Report, facts: seq<Fact>, k: Key, order: seq<string>)
    ensures var j := Judge(r, Members(facts, k), order);
      && (forall x :: x in j.accepted <==> x in r.accepted || AcceptedFor(facts, order, k, x))
      && (forall x :: x in j.preferred <==> x in r.preferred || AcceptedFor(facts, order, k, x) || HintedFor(facts, order, k, x))
      && (forall x :: x in j.rejected <==> x in r.rejected || RejectedFor(facts, order, k, x))
      && (r.superseded == r.rejected ==> j.superseded == j.rejected)
  {
    hide Members, Ranked, Conflicted, Ids, Accept, Hint;
  }

  lemma {:induction false} VerdictAdds(facts: seq<Fact>, order: seq<string>, keys: seq<Key>)
    ensures var v := Verdict(facts, order, keys);
      && (forall x :: x in v.accepted <==> exists k :: k in keys && AcceptedFor(facts, order, k, x))
      && (forall x :: x in v.preferred
           <==> exists k :: k in keys && (AcceptedFor(facts, order, k, x) || HintedFor(facts, order, k, x)))
      && (forall x :: x in v.rejected <==> exists k :: k in keys && RejectedFor(facts, order, k, x))
      && v.superseded == v.rejected
    decreases |keys|
  {
    hide Judge, Members, AcceptedFor, HintedFor, RejectedFor;
    if keys != [] {
      var init, k := keys[..|keys| - 1], keys[|keys| - 1];
      VerdictAdds(facts, order, init);
      JudgeAdds(Verdict(facts, order, init), facts, k, order);
      assert forall j :: j in keys <==> j in init || j == k;
    }
  }

  // For one group: its accepted fact is the first of it, made so.
  lemma AcceptedForExactly(facts: seq<Fact>, order: seq<string>, k: Key, x: Fact)
    requires DistinctIds(facts)
    ensures AcceptedFor(facts, order, k, x)
        <==> exists f :: KeyOf(f) == k && Stands(SetOf(facts), order, f) && x == Accept(f)
    ensures HintedFor(facts, order, k, x)
        <==> exists f :: KeyOf(f) == k && OnlyHinted(SetOf(facts), order, f) && x == Hint(f)
  {
    hide Members, Ranked, Conflicted, First, Disputed, Least, DistinctIds;
    var group := Members(facts, k);
    DisputedIsConflicted(facts, k);
    MembersDistinct(facts, k);
    if group != [] {
      HeadIsLeastRanked(group, order);
      var head := Ranked(group, order)[0];
      LeastIsMember(order, group, head);
      MembersExactly(facts, k);
      FirstIsLeast(facts, order, head);
    } else {
      EmptyRanks(order);
    }
    forall f | KeyOf(f) == k && First(SetOf(facts), order, f)
      ensures group != [] && f == Ranked(group, order)[0]
    {
      FirstIsLeast(facts, order, f);
      LeastIsMember(order, group, f);
      LeastIsUnique(order, group, f, Ranked(group, order)[0]);
    }
  }

  lemma LeastIsMember(order: seq<string>, facts: seq<Fact>, f: Fact)
    requires Least(order, facts, f)
    ensures f in facts
  {
  }

  lemma EmptyRanks(order: seq<string>)
    ensures Ranked([], order) == []
  {
  }

  // Agreement is acceptance: the accepted facts are exactly the first ones of undisputed groups.
  lemma AcceptedExactly(facts: seq<Fact>, order: seq<string>, x: Fact)
    requires DistinctIds(facts)
    ensures x in Reconciled(facts, order).accepted
        <==> exists f :: Stands(SetOf(facts), order, f) && x == Accept(f)
  {
    hide Verdict, AcceptedFor, HintedFor, Members, DistinctIds, First, Disputed, Keys;
    VerdictAdds(facts, order, Keys(facts));
    forall k
      ensures AcceptedFor(facts, order, k, x)
          <==> exists f :: KeyOf(f) == k && Stands(SetOf(facts), order, f) && x == Accept(f)
    {
      AcceptedForExactly(facts, order, k, x);
    }
    forall f | Stands(SetOf(facts), order, f)
      ensures KeyOf(f) in Keys(facts)
    {
      FirstHasKey(facts, order, f);
    }
  }

  lemma FirstHasKey(facts: seq<Fact>, order: seq<string>, f: Fact)
    requires First(SetOf(facts), order, f)
    ensures KeyOf(f) in Keys(facts)
  {
    KeysExactly(facts);
    MembersExactly(facts, KeyOf(f));
    hide Keys, Members;
  }

  // The preferred facts are the accepted ones, and the heads of disputed groups as candidates.
  lemma PreferredExactly(facts: seq<Fact>, order: seq<string>, x: Fact)
    requires DistinctIds(facts)
    ensures x in Reconciled(facts, order).preferred
        <==> ((exists f :: Stands(SetOf(facts), order, f) && x == Accept(f))
              || (exists f :: OnlyHinted(SetOf(facts), order, f) && x == Hint(f)))
  {
    hide Verdict, AcceptedFor, HintedFor, Members, DistinctIds, First, Disputed, Keys;
    VerdictAdds(facts, order, Keys(facts));
    forall k
      ensures AcceptedFor(facts, order, k, x)
          <==> exists f :: KeyOf(f) == k && Stands(SetOf(facts), order, f) && x == Accept(f)
      ensures HintedFor(facts, order, k, x)
          <==> exists f :: KeyOf(f) == k && OnlyHinted(SetOf(facts), order, f) && x == Hint(f)
    {
      AcceptedForExactly(facts, order, k, x);
    }
    forall f | First(SetOf(facts), order, f)
      ensures KeyOf(f) in Keys(facts)
    {
      FirstHasKey(facts, order, f);
    }
  }

  // Disagreement is rejection: of every disputed group all facts but the first, and nothing else.
  lemma RejectedExactly(facts: seq<Fact>, order: seq<string>, x: string)
    requires DistinctIds(facts)
    ensures x in Reconciled(facts, order).rejected
        <==> exists f :: Overruled(SetOf(facts), order, f) && f.factId == x
    ensures Reconciled(facts, order).superseded == Reconciled(facts, order).rejected
  {
    hide Verdict, RejectedFor, Members, DistinctIds, Overruled, Keys;
    VerdictAdds(facts, order, Keys(facts));
    forall k
      ensures k in Keys(facts) && RejectedFor(facts, order, k, x)
          <==> exists f :: KeyOf(f) == k && Overruled(SetOf(facts), order, f) && f.factId == x
    {
      RejectedForExactly(facts, order, k, x);
    }
    forall f | Overruled(SetOf(facts), order, f) && f.factId == x
      ensures KeyOf(f) in Keys(facts) && RejectedFor(facts, order, KeyOf(f), x)
    {
    }
  }

  lemma RejectedForExactly(facts: seq<Fact>, order: seq<string>, k: Key, x: string)
    requires DistinctIds(facts)
    ensures k in Keys(facts) && RejectedFor(facts, order, k, x)
        <==> exists f :: KeyOf(f) == k && Overruled(SetOf(facts), order, f) && f.factId == x
  {
    hide Members, Ranked, Conflicted, First, Disputed, Least, DistinctIds, Keys, Ids;
    var group := Members(facts, k);
    DisputedIsConflicted(facts, k);
    MembersDistinct(facts, k);
    KeysExactly(facts);
    MembersExactly(facts, k);
    if group != [] {
      HeadIsLeastRanked(group, order);
      forall f
        ensures f in Ranked(group, order)[1..] <==> KeyOf(f) == k && f in SetOf(facts) && !First(SetOf(facts), order, f)
      {
        Losers(group, order, f);
        if KeyOf(f) == k {
          FirstIsLeast(facts, order, f);
        }
      }
    }
  }

  // ----- consequences

  // One accepted fact for each undisputed group, none for a disputed one.
  lemma OneVerdictPerGroup(facts: seq<Fact>, order: seq<string>, k: Key)
    requires DistinctIds(facts) && k in Keys(facts)
    ensures var s, accepted := SetOf(facts), Members(Reconciled(facts, order).accepted, k);
      if Disputed(s, k) then accepted == []
      else exists f :: accepted == [Accept(f)] && KeyOf(f) == k && First(s, order, f)
  {
    hide Conflicted, Ranked, Least, DistinctIds, First, Disputed, Keys;
    var group := Members(facts, k);
    KeysExactly(facts);
    DisputedIsConflicted(facts, k);
    AcceptedOfGroup(facts, order, Keys(facts), k);
    HeadIsLeastRanked(group, order);
    var head := Ranked(group, order)[0];
    LeastIsMember(order, group, head);
    MembersExactly(facts, k);
    FirstIsLeast(facts, order, head);
    hide Members;
  }

  lemma {:induction false} AcceptedOfGroup(facts: seq<Fact>, order: seq<string>, keys: seq<Key>, k: Key)
    requires Distinct(keys) && forall j :: j in keys ==> Members(facts, j) != []
    ensures Members(Verdict(facts, order, keys).accepted, k)
         == if k in keys && !Conflicted(Members(facts, k)) && Ranked(Members(facts, k), order) != []
            then [Accept(Ranked(Members(facts, k), order)[0])] else []
    decreases |keys|
  {
    hide Conflicted, Ranked, Ids;
    if keys != [] {
      var init, j := keys[..|keys| - 1], keys[|keys| - 1];
      assert j !in init;
      assert k in keys <==> k in init || k == j;
      AcceptedOfGroup(facts, order, init, k);
      var before, group := Verdict(facts, order, init), Members(facts, j);
      if Ranked(group, order) != [] && !Conflicted(group) {
        HeadIsLeastRanked(group, order);
        var head := Ranked(group, order)[0];
        HeadInGroup(facts, order, j);
        assert (before.accepted + [Accept(head)])[..|before.accepted|] == before.accepted;
      }
    }
  }

  lemma HeadInGroup(facts: seq<Fact>, order: seq<string>, k: Key)
    requires Members(facts, k) != [] && Ranked(Members(facts, k), order) != []
    ensures KeyOf(Ranked(Members(facts, k), order)[0]) == k
  {
    HeadIsLeastRanked(Members(facts, k), order);
    MembersExactly(facts, k);
  }

  // Nothing is lost or invented: the ranked candidates are the facts, reordered.
  lemma RankedPermutesFacts(facts: seq<Fact>, order: seq<string>)
    ensures multiset(Reconciled(facts, order).ranked) == multiset(facts)
  {
    KeysExactly(facts);
    var keys := Keys(facts);
    RankedIsSelection(facts, order, keys);
    forall f | f in facts
      ensures KeyOf(f) in keys
    {
      MembersExactly(facts, KeyOf(f));
    }
    SelectionOfAll(facts, keys);
  }

  // The facts of the listed groups.
  function Selection(facts: seq<Fact>, keys: seq<Key>): seq<Fact> {
    if facts == [] then []
    else
      var last := facts[|facts| - 1];
      Selection(facts[..|facts| - 1], keys) + (if KeyOf(last) in keys then [last] else [])
  }

  lemma {:induction false} SelectionOfAll(facts: seq<Fact>, keys: seq<Key>)
    requires forall f :: f in facts ==> KeyOf(f) in keys
    ensures Selection(facts, keys) == facts
  {
    if facts != [] {
      var init, last := facts[..|facts| - 1], facts[|facts| - 1];
      assert facts == init + [last] && last in facts;
      assert forall f :: f in init ==> f in facts;
      SelectionOfAll(init, keys);
      hide KeyOf;
    }
  }

  lemma {:induction false} SelectionGrows(facts: seq<Fact>, keys: seq<Key>, k: Key)
    requires k !in keys
    ensures multiset(Selection(facts, keys + [k])) == multiset(Selection(facts, keys)) + multiset(Members(facts, k))
  {
    if facts != [] {
      SelectionGrows(facts[..|facts| - 1], keys, k);
    }
  }

  lemma {:induction false} SelectionOfNone(facts: seq<Fact>)
    ensures Selection(facts, []) == []
  {
    if facts != [] {
      SelectionOfNone(facts[..|facts| - 1]);
    }
  }

  lemma {:induction false} RankedIsSelection(facts: seq<Fact>, order: seq<string>, keys: seq<Key>)
    requires Distinct(keys)
    ensures multiset(Verdict(facts, order, keys).ranked) == multiset(Selection(facts, keys))
    decreases |keys|
  {
    hide Members, Ranked, Selection, Conflicted;
    if keys == [] {
      SelectionOfNone(facts);
    } else {
      var init, k := keys[..|keys| - 1], keys[|keys| - 1];
      assert k !in init;
      RankedIsSelection(facts, order, init);
      SelectionGrows(facts, init, k);
      assert keys == init + [k];
      JudgeRanks(Verdict(facts, order, init), Members(facts, k), order);
    }
  }

  lemma JudgeRanks(r: Report, group: seq<Fact>, order: seq<string>)
    ensures multiset(Judge(r, group, order).ranked) == multiset(r.ranked) + multiset(group)
  {
    hide Ranked, Conflicted, Ids;
    if group == [] {
      EmptyRanks(order);
    } else {
      HeadIsLeastRanked(group, order);
    }
  }

  // The order of arrival is irrelevant: the same facts give the same accepted, preferred and rejected ones.
  lemma ArrivalIsIrrelevant(a: seq<Fact>, b: seq<Fact>, order: seq<string>)
    requires DistinctIds(a) && DistinctIds(b) && SetOf(a) == SetOf(b)
    ensures var r, s := Reconciled(a, order), Reconciled(b, order);
      && (forall x :: x in r.accepted <==> x in s.accepted)
      && (forall x :: x in r.preferred <==> x in s.preferred)
      && (forall x :: x in r.rejected <==> x in s.rejected)
    ensures forall k :: Ranked(Members(a, k), order) == Ranked(Members(b, k), order)
  {
    hide Reconciled, Ranked, Members, Stands, OnlyHinted, Overruled, DistinctIds, SetOf, Accept, Hint;
    forall x
      ensures x in Reconciled(a, order).accepted <==> x in Reconciled(b, order).accepted
      ensures x in Reconciled(a, order).preferred <==> x in Reconciled(b, order).preferred
    {
      AcceptedExactly(a, order, x);
      AcceptedExactly(b, order, x);
      PreferredExactly(a, order, x);
      PreferredExactly(b, order, x);
    }
    forall x
      ensures x in Reconciled(a, order).rejected <==> x in Reconciled(b, order).rejected
    {
      RejectedExactly(a, order, x);
      RejectedExactly(b, order, x);
    }
    forall k
      ensures Ranked(Members(a, k), order) == Ranked(Members(b, k), order)
    {
      RankingIgnoresArrival(a, b, order, k);
    }
  }

  lemma RankingIgnoresArrival(a: seq<Fact>, b: seq<Fact>, order: seq<string>, k: Key)
    requires DistinctIds(a) && DistinctIds(b) && SetOf(a) == SetOf(b)
    ensures Ranked(Members(a, k), order) == Ranked(Members(b, k), order)
  {
    var p, q := Members(a, k), Members(b, k);
    MembersDistinct(a, k);
    MembersDistinct(b, k);
    MembersExactly(a, k);
    MembersExactly(b, k);
    assert forall f :: f in a <==> f in SetOf(a);
    assert forall f :: f in b <==> f in SetOf(b);
    hide Members, RankLeq;
    DistinctSameSet(p, q);
    RankIsOrder(order);
    forall f, g | f in p && g in p && ByRank(order)(f, g) && ByRank(order)(g, f)
      ensures f == g
    {
      TiedIsSame(p, order, f, g);
    }
    SortIgnoresArrival(ByRank(order), p, q);
  }

  lemma TiedIsSame(facts: seq<Fact>, order: seq<string>, f: Fact, g: Fact)
    requires DistinctIds(facts) && f in facts && g in facts && RankLeq(order, f, g) && RankLeq(order, g, f)
    ensures f == g
  {
    StringLeqAntisymmetric(f.factId, g.factId);
    SameIdSameFact(facts, f, g);
  }

  // Of two facts of one claim with one value, one identifier and one rank, the earlier is accepted.
  lemma ArrivalBreaksTies(order: seq<string>, f: Fact, g: Fact)
    requires KeyOf(f) == KeyOf(g) && f.fingerprint == g.fingerprint && f.factId == g.factId
    requires Rank(order, f.evidence) == Rank(order, g.evidence)
    ensures Reconciled([f, g], order).accepted == [Accept(f)] && Reconciled([g, f], order).accepted == [Accept(g)]
  {
    TieGoesToFirst(order, f, g);
    TieGoesToFirst(order, g, f);
  }

  lemma PairOfOneGroup(f: Fact, g: Fact)
    requires KeyOf(f) == KeyOf(g)
    ensures Members([f, g], KeyOf(f)) == [f, g] && Keys([f, g]) == [KeyOf(f)]
  {
    hide Members, Keys;
    var facts := [f, g];
    assert facts[..0] == [] && facts[..1] == [f] && facts[..2] == facts;
    NoFacts();
    OneMoreFact(facts, 0);
    OneMoreFact(facts, 1);
  }

  lemma PairInOrder<T>(leq: Order<T>, x: T, y: T)
    requires leq(x, y)
    ensures Sort(leq, [x, y]) == [x, y]
  {
    assert [x, y][1..] == [y] && [y][1..] == [];
    assert Sort(leq, [y]) == Insert(leq, y, Sort(leq, []));
  }

  lemma TieGoesToFirst(order: seq<string>, f: Fact, g: Fact)
    requires KeyOf(f) == KeyOf(g) && f.fingerprint == g.fingerprint && f.factId == g.factId
    requires Rank(order, f.evidence) == Rank(order, g.evidence)
    ensures Reconciled([f, g], order).accepted == [Accept(f)]
  {
    hide Conflicted, Members, Keys, Sort, Insert, StringLeq, Ids, Rank;
    var facts, k := [f, g], KeyOf(f);
    PairOfOneGroup(f, g);
    ConflictedExactly(facts);
    StringLeqReflexive(f.factId);
    PairInOrder(ByRank(order), f, g);
    assert [k][..0] == [];
    assert Verdict(facts, order, [k]) == Judge(Verdict(facts, order, []), facts, order);
  }

  // Precedence settles nothing: under any two orders the same claims are accepted with the same values.
  lemma PrecedenceSettlesNothing(facts: seq<Fact>, order: seq<string>, other: seq<string>, x: Fact)
    requires DistinctIds(facts) && x in Reconciled(facts, order).accepted
    ensures exists y :: y in Reconciled(facts, other).accepted && KeyOf(y) == KeyOf(x) && y.fingerprint == x.fingerprint
  {
    hide Reconciled, Ranked, DistinctIds, Conflicted, Least, RankLeq, Members, Disputed;
    AcceptedExactly(facts, order, x);
    var f :| Stands(SetOf(facts), order, f) && x == Accept(f);
    var group := Members(facts, KeyOf(f));
    MembersExactly(facts, KeyOf(f));
    HeadIsLeastRanked(group, other);
    var g := Ranked(group, other)[0];
    LeastIsMember(other, group, g);
    FirstIsLeast(facts, other, g);
    Undisputed(SetOf(facts), f, g);
    AcceptedExactly(facts, other, Accept(g));
    assert Stands(SetOf(facts), other, g);
    assert Accept(g) in Reconciled(facts, other).accepted;
  }

  lemma Undisputed(s: set<Fact>, f: Fact, g: Fact)
    requires f in s && g in s && KeyOf(f) == KeyOf(g) && !Disputed(s, KeyOf(f))
    ensures f.fingerprint == g.fingerprint
  {
  }

  // A dispute cannot be talked away: with more facts, none of its group is accepted still.
  lemma DisputesPersist(facts: seq<Fact>, more: seq<Fact>, order: seq<string>, k: Key, x: Fact)
    requires DistinctIds(facts + more) && Disputed(SetOf(facts), k) && KeyOf(x) == k
    ensures x !in Reconciled(facts + more, order).accepted
  {
    assert Disputed(SetOf(facts + more), k);
    hide Reconciled, DistinctIds, Disputed, First;
    AcceptedExactly(facts + more, order, x);
  }
}
