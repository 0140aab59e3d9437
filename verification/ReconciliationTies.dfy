/** What the order of arrival can change: which of several tied facts leads its group, and exactly when that shows. */
module ReconciliationTies {
  import opened Reconciliation
  import opened ReconciliationLaws
  import opened Sorting

  ghost predicate Permuted(a: seq<Fact>, b: seq<Fact>) { multiset(a) == multiset(b) }

  // Facts tied for first in the group differ at most in the marks that a verdict overwrites.
  ghost predicate TiesAgree(s: set<Fact>, order: seq<string>, k: Key) {
    forall f, g :: First(s, order, f) && First(s, order, g) && KeyOf(f) == k && KeyOf(g) == k ==> Accept(f) == Accept(g)
  }

  // Facts that both come first have the same rank and the same identifier, and only such facts do.
  lemma TiedForFirst(s: set<Fact>, order: seq<string>, f: Fact, g: Fact)
    requires First(s, order, f) && g in s && KeyOf(g) == KeyOf(f)
    ensures First(s, order, g) <==> Rank(order, g.evidence) == Rank(order, f.evidence) && g.factId == f.factId
  {
    if First(s, order, g) {
      assert RankLeq(order, f, g) && RankLeq(order, g, f);
      StringLeqAntisymmetric(f.factId, g.factId);
    }
    if Rank(order, g.evidence) == Rank(order, f.evidence) && g.factId == f.factId {
      forall h | h in s && KeyOf(h) == KeyOf(g)
        ensures RankLeq(order, g, h)
      {
        assert RankLeq(order, f, h);
      }
    }
    hide Rank;
  }

  lemma MarksAgree(f: Fact, g: Fact)
    ensures Accept(f) == Accept(g) <==> Hint(f) == Hint(g)
  {
  }

  // ----- heads

  ghost predicate Heads(facts: seq<Fact>, order: seq<string>, k: Key, f: Fact) {
    var ranked := Ranked(Members(facts, k), order);
    ranked != [] && f == ranked[0]
  }

  lemma HeadOf(facts: seq<Fact>, order: seq<string>, k: Key) returns (f: Fact)
    requires k in Keys(facts)
    ensures Heads(facts, order, k, f)
  {
    KeysExactly(facts);
    HeadIsLeastRanked(Members(facts, k), order);
    f := Ranked(Members(facts, k), order)[0];
  }

  lemma HeadIsFirst(facts: seq<Fact>, order: seq<string>, k: Key, f: Fact)
    requires Heads(facts, order, k, f)
    ensures First(SetOf(facts), order, f) && KeyOf(f) == k && k in Keys(facts)
  {
    if Members(facts, k) == [] {
      EmptyRanks(order);
    } else {
      HeadIsLeastRanked(Members(facts, k), order);
      hide Ranked;
      LeastIsMember(order, Members(facts, k), f);
      MembersExactly(facts, k);
      FirstIsLeast(facts, order, f);
      KeysExactly(facts);
    }
  }

  // The fact a group puts forward: accepted when it is undisputed, a hint when it is not.
  ghost predicate Shown(facts: seq<Fact>, order: seq<string>, disputed: bool, x: Fact) {
    exists k, f :: Heads(facts, order, k, f) && Disputed(SetOf(facts), k) == disputed
                   && x == if disputed then Hint(f) else Accept(f)
  }

  lemma ShownExactly(facts: seq<Fact>, order: seq<string>, x: Fact)
    ensures x in Reconciled(facts, order).accepted <==> Shown(facts, order, false, x)
    ensures x in Reconciled(facts, order).preferred <==> Shown(facts, order, false, x) || Shown(facts, order, true, x)
  {
    VerdictAdds(facts, order, Keys(facts));
    hide Verdict, Members, Ranked, Keys, Accept, Hint;
    forall k
      ensures AcceptedFor(facts, order, k, x)
          <==> exists f :: Heads(facts, order, k, f) && !Disputed(SetOf(facts), k) && x == Accept(f)
      ensures HintedFor(facts, order, k, x)
          <==> exists f :: Heads(facts, order, k, f) && Disputed(SetOf(facts), k) && x == Hint(f)
    {
      DisputedIsConflicted(facts, k);
      hide Disputed, Conflicted, SetOf;
    }
    hide AcceptedFor, HintedFor, Disputed, SetOf;
    forall k, f | Heads(facts, order, k, f)
      ensures k in Keys(facts)
    {
      HeadIsFirst(facts, order, k, f);
    }
  }

  lemma PermutedSets(a: seq<Fact>, b: seq<Fact>)
    requires Permuted(a, b)
    ensures SetOf(a) == SetOf(b)
  {
    SameElements(a, b);
  }

  // When ties agree, another arrival shows the same.
  lemma ShownCarries(a: seq<Fact>, b: seq<Fact>, order: seq<string>, disputed: bool, x: Fact)
    requires SetOf(a) == SetOf(b) && Shown(a, order, disputed, x)
    requires forall k :: Disputed(SetOf(a), k) == disputed ==> TiesAgree(SetOf(a), order, k)
    ensures Shown(b, order, disputed, x)
  {
    hide Heads, Disputed, First;
    var k, f :| Heads(a, order, k, f) && Disputed(SetOf(a), k) == disputed && x == if disputed then Hint(f) else Accept(f);
    HeadIsFirst(a, order, k, f);
    SameKeys(a, b, k);
    var g := HeadOf(b, order, k);
    HeadIsFirst(b, order, k, g);
    assert TiesAgree(SetOf(a), order, k);
    MarksAgree(f, g);
  }

  lemma SameKeys(a: seq<Fact>, b: seq<Fact>, k: Key)
    requires SetOf(a) == SetOf(b)
    ensures k in Keys(a) <==> k in Keys(b)
  {
    KeysExactly(a);
    KeysExactly(b);
    MembersExactly(a, k);
    MembersExactly(b, k);
    hide Keys, Members;
    assert forall f :: f in a <==> f in SetOf(a);
    assert forall f :: f in b <==> f in SetOf(b);
    if Members(a, k) != [] {
      assert Members(a, k)[0] in Members(b, k);
    }
    if Members(b, k) != [] {
      assert Members(b, k)[0] in Members(a, k);
    }
  }

  // ----- a tied fact brought to the front leads

  lemma BroughtToFront(facts: seq<Fact>, f: Fact) returns (b: seq<Fact>)
    requires f in facts
    ensures Permuted(facts, b) && b != [] && b[0] == f
  {
    var i :| 0 <= i < |facts| && facts[i] == f;
    b := [f] + (facts[..i] + facts[i + 1..]);
    assert facts == facts[..i] + [f] + facts[i + 1..];
  }

  lemma {:induction false} FrontMember(facts: seq<Fact>)
    requires facts != []
    ensures var members := Members(facts, KeyOf(facts[0])); members != [] && members[0] == facts[0]
    decreases |facts|
  {
    if |facts| > 1 {
      FrontMember(facts[..|facts| - 1]);
    }
  }

  lemma FrontHeads(facts: seq<Fact>, order: seq<string>)
    requires facts != [] && First(SetOf(facts), order, facts[0])
    ensures Heads(facts, order, KeyOf(facts[0]), facts[0])
  {
    var members := Members(facts, KeyOf(facts[0]));
    FrontMember(facts);
    FirstIsLeast(facts, order, facts[0]);
    hide Members, RankLeq;
    forall g | g in members
      ensures ByRank(order)(members[0], g)
    {
    }
    RankIsOrder(order);
    EarliestLeads(ByRank(order), members, 0);
  }

  // Ties that differ show: each of the two comes out under some arrival, and never both.
  lemma TiesShow(facts: seq<Fact>, order: seq<string>, disputed: bool, f: Fact) returns (b: seq<Fact>)
    requires First(SetOf(facts), order, f) && Disputed(SetOf(facts), KeyOf(f)) == disputed
    ensures Permuted(facts, b)
    ensures Shown(b, order, disputed, if disputed then Hint(f) else Accept(f))
    ensures forall x, d :: Shown(b, order, d, x) && KeyOf(x) == KeyOf(f) ==> d == disputed && x == if disputed then Hint(f) else Accept(f)
  {
    b := BroughtToFront(facts, f);
    PermutedSets(facts, b);
    FrontHeads(b, order);
    hide Disputed, First, SetOf;
    assert Heads(b, order, KeyOf(f), f);
    forall k, g | Heads(b, order, k, g)
      ensures KeyOf(g) == k && (k == KeyOf(f) ==> g == f)
    {
      HeadIsFirst(b, order, k, g);
    }
    hide Heads;
  }

  // ----- when the order of arrival matters

  ghost predicate SameAccepted(a: seq<Fact>, b: seq<Fact>, order: seq<string>) {
    forall x :: x in Reconciled(a, order).accepted <==> x in Reconciled(b, order).accepted
  }

  ghost predicate SamePreferred(a: seq<Fact>, b: seq<Fact>, order: seq<string>) {
    forall x :: x in Reconciled(a, order).preferred <==> x in Reconciled(b, order).preferred
  }

  // The accepted facts are the same however the facts arrive exactly when, in every undisputed group, facts tied for
  // first are accepted as one and the same.
  lemma AcceptedIgnoresArrivalExactly(facts: seq<Fact>, order: seq<string>)
    ensures (forall b :: Permuted(facts, b) ==> SameAccepted(facts, b, order))
        <==> forall k :: !Disputed(SetOf(facts), k) ==> TiesAgree(SetOf(facts), order, k)
  {
    hide Reconciled, Shown, Disputed, SetOf, First, Accept, Hint;
    if forall k :: !Disputed(SetOf(facts), k) ==> TiesAgree(SetOf(facts), order, k) {
      forall b | Permuted(facts, b)
        ensures SameAccepted(facts, b, order)
      {
        AcceptedCarries(facts, b, order);
      }
    } else {
      var k :| !Disputed(SetOf(facts), k) && !TiesAgree(SetOf(facts), order, k);
      var f, g :| First(SetOf(facts), order, f) && First(SetOf(facts), order, g) && KeyOf(f) == k && KeyOf(g) == k
                  && Accept(f) != Accept(g);
      var b := TiesShow(facts, order, false, f);
      var c := TiesShow(facts, order, false, g);
      ShownExactly(b, order, Accept(g));
      ShownExactly(c, order, Accept(g));
      assert !SameAccepted(b, c, order);
      assert !(SameAccepted(facts, b, order) && SameAccepted(facts, c, order));
    }
  }

  lemma AcceptedCarries(a: seq<Fact>, b: seq<Fact>, order: seq<string>)
    requires Permuted(a, b) && forall k :: !Disputed(SetOf(a), k) ==> TiesAgree(SetOf(a), order, k)
    ensures SameAccepted(a, b, order)
  {
    PermutedSets(a, b);
    hide Reconciled, Shown, Disputed, SetOf, TiesAgree;
    forall x
      ensures x in Reconciled(a, order).accepted <==> x in Reconciled(b, order).accepted
    {
      ShownExactly(a, order, x);
      ShownExactly(b, order, x);
      if Shown(a, order, false, x) {
        ShownCarries(a, b, order, false, x);
      }
      if Shown(b, order, false, x) {
        ShownCarries(b, a, order, false, x);
      }
    }
  }

  // The preferred facts, exactly when that holds of the disputed groups too.
  lemma PreferredIgnoresArrivalExactly(facts: seq<Fact>, order: seq<string>)
    ensures (forall b :: Permuted(facts, b) ==> SamePreferred(facts, b, order))
        <==> forall k :: TiesAgree(SetOf(facts), order, k)
  {
    hide Reconciled, Shown, Disputed, SetOf, First, Accept, Hint;
    if forall k :: TiesAgree(SetOf(facts), order, k) {
      forall b | Permuted(facts, b)
        ensures SamePreferred(facts, b, order)
      {
        PreferredCarries(facts, b, order);
      }
    } else {
      var k :| !TiesAgree(SetOf(facts), order, k);
      var f, g :| First(SetOf(facts), order, f) && First(SetOf(facts), order, g) && KeyOf(f) == k && KeyOf(g) == k
                  && Accept(f) != Accept(g);
      var disputed := Disputed(SetOf(facts), k);
      var b := TiesShow(facts, order, disputed, f);
      var c := TiesShow(facts, order, disputed, g);
      MarksAgree(f, g);
      var x := if disputed then Hint(g) else Accept(g);
      ShownExactly(b, order, x);
      ShownExactly(c, order, x);
      assert !SamePreferred(b, c, order);
      assert !(SamePreferred(facts, b, order) && SamePreferred(facts, c, order));
    }
  }

  lemma PreferredCarries(a: seq<Fact>, b: seq<Fact>, order: seq<string>)
    requires Permuted(a, b) && forall k :: TiesAgree(SetOf(a), order, k)
    ensures SamePreferred(a, b, order)
  {
    PermutedSets(a, b);
    hide Reconciled, Shown, Disputed, SetOf, TiesAgree;
    forall x
      ensures x in Reconciled(a, order).preferred <==> x in Reconciled(b, order).preferred
    {
      ShownExactly(a, order, x);
      ShownExactly(b, order, x);
      forall d: bool
        ensures Shown(a, order, d, x) <==> Shown(b, order, d, x)
      {
        if Shown(a, order, d, x) {
          ShownCarries(a, b, order, d, x);
        }
        if Shown(b, order, d, x) {
          ShownCarries(b, a, order, d, x);
        }
      }
    }
  }

  // Distinct identifiers leave no ties to differ.
  lemma DistinctIdsSettle(facts: seq<Fact>, order: seq<string>, k: Key)
    requires DistinctIds(facts)
    ensures TiesAgree(SetOf(facts), order, k)
  {
    hide RankLeq;
    forall f, g | First(SetOf(facts), order, f) && First(SetOf(facts), order, g) && KeyOf(f) == k && KeyOf(g) == k
      ensures f == g
    {
      TiedIsSame(facts, order, f, g);
    }
  }

  // ----- the rejected identifiers never depend on it

  lemma {:induction false} MemberCounts(facts: seq<Fact>, k: Key, f: Fact)
    ensures multiset(Members(facts, k))[f] == if KeyOf(f) == k then multiset(facts)[f] else 0
  {
    if facts != [] {
      var init, last := facts[..|facts| - 1], facts[|facts| - 1];
      MemberCounts(init, k, f);
      assert facts == init + [last];
    }
  }

  lemma GroupsPermuted(a: seq<Fact>, b: seq<Fact>, k: Key)
    requires Permuted(a, b)
    ensures multiset(Members(a, k)) == multiset(Members(b, k))
  {
    forall f
      ensures multiset(Members(a, k))[f] == multiset(Members(b, k))[f]
    {
      MemberCounts(a, k, f);
      MemberCounts(b, k, f);
    }
  }

  // Of two arrangements of the same facts: what is behind the head of one is behind the head of the other, or is that
  // head itself, and then the first head is behind it.
  lemma OtherTail(r: seq<Fact>, r': seq<Fact>, f: Fact) returns (g: Fact)
    requires r != [] && r' != [] && multiset(r) == multiset(r') && f in r[1..]
    ensures g in r'[1..] && (g == f || (f == r'[0] && g == r[0]))
  {
    TailLosesHead(r);
    TailLosesHead(r');
    assert f in multiset(r[1..]);
    g := if f == r'[0] then r[0] else f;
    assert g in multiset(r'[1..]);
  }

  // Heads may differ, but then each is among the other's losers, under the one identifier they share.
  lemma LosersPermuted(m: seq<Fact>, m': seq<Fact>, order: seq<string>, x: string)
    requires multiset(m) == multiset(m') && Ranked(m, order) != [] && x in Ids(Ranked(m, order)[1..])
    ensures Ranked(m', order) != [] && x in Ids(Ranked(m', order)[1..])
  {
    if m == [] {
      EmptyRanks(order);
    } else {
      SameElements(m, m');
      HeadIsLeastRanked(m, order);
      HeadIsLeastRanked(m', order);
      var r, r' := Ranked(m, order), Ranked(m', order);
      assert Least(order, m, r'[0]);
      hide Ranked, RankLeq, Ids, Least;
      LeastSharesId(order, m, r[0], r'[0]);
      var f :| f in r[1..] && f.factId == x;
      var g := OtherTail(r, r', f);
    }
  }

  lemma LeastSharesId(order: seq<string>, facts: seq<Fact>, f: Fact, g: Fact)
    requires Least(order, facts, f) && Least(order, facts, g)
    ensures f.factId == g.factId
  {
    assert RankLeq(order, f, g) && RankLeq(order, g, f);
    StringLeqAntisymmetric(f.factId, g.factId);
  }

  // However the facts arrive, ties or none, the same identifiers are rejected and superseded.
  lemma RejectedIgnoresArrival(a: seq<Fact>, b: seq<Fact>, order: seq<string>, x: string)
    requires Permuted(a, b)
    ensures x in Reconciled(a, order).rejected <==> x in Reconciled(b, order).rejected
  {
    VerdictAdds(a, order, Keys(a));
    VerdictAdds(b, order, Keys(b));
    PermutedSets(a, b);
    hide Verdict, Keys, RejectedFor, SetOf;
    forall k
      ensures k in Keys(a) <==> k in Keys(b)
      ensures RejectedFor(a, order, k, x) <==> RejectedFor(b, order, k, x)
    {
      SameKeys(a, b, k);
      RejectedPermuted(a, b, order, k, x);
      RejectedPermuted(b, a, order, k, x);
    }
  }

  lemma RejectedPermuted(a: seq<Fact>, b: seq<Fact>, order: seq<string>, k: Key, x: string)
    requires Permuted(a, b)
    ensures RejectedFor(a, order, k, x) ==> RejectedFor(b, order, k, x)
  {
    if RejectedFor(a, order, k, x) {
      PermutedSets(a, b);
      DisputedIsConflicted(a, k);
      DisputedIsConflicted(b, k);
      GroupsPermuted(a, b, k);
      hide Members, Ranked, Conflicted, Ids, Disputed;
      LosersPermuted(Members(a, k), Members(b, k), order, x);
    }
  }
}
