/** Delta debugging: shrink a failing sequence while it keeps failing, and record every accepted reduction. */
module Minimizer {
  import opened Wrappers
  import opened Granules
  import opened Reductions

  datatype MinimizationResult<T> = MinimizationResult(
    original: seq<T>,
    minimized: seq<T>,
    iterations: int,
    preservedFailure: bool,
    reductionSteps: seq<ReductionStep<T>>)

  // ----- cost

  // What the granularity rounds may still spend on a sequence of this length.
  function RoundsLeft(length: int, n: int): int {
    if n >= length then 1 + 2 * length else 1 + 8 * length - 3 * n
  }

  function SearchLeft(length: int, n: int): int {
    4 * (length - 1) * length + RoundsLeft(length, n)
  }

  function DropsLeft(length: int): int {
    length * (length + 1) / 2
  }

  lemma ShorterIsCheaper(length: int, length': int, n': int)
    requires 1 <= length' < length && n' >= 2
    ensures SearchLeft(length', n') <= 4 * (length - 1) * length
  {
    assert RoundsLeft(length', n') <= 8 * length';
    assert 4 * (length' - 1) * length' + 8 * length' == 4 * length' * (length' + 1);
    Squares(length', length - 1);
  }

  lemma Squares(a: int, b: int)
    requires 0 <= a <= b
    ensures 4 * a * (a + 1) <= 4 * b * (b + 1)
  {
    assert a * (a + 1) <= b * (b + 1) by {
      assert (b - a) * (a + b + 1) >= 0;
    }
  }

  lemma DropsShrink(length: int)
    requires length >= 1
    ensures DropsLeft(length - 1) + length == DropsLeft(length)
  {
    assert length * (length + 1) == (length - 1) * length + 2 * length;
  }

  // A round that shortens the sequence is paid for by the drop in the bound.
  lemma ReductionPays(length: int, n: int, length': int, n': int)
    requires 2 <= n <= length && 1 <= length' < length && n' >= 2
    ensures 1 + 2 * n + SearchLeft(length', n') <= SearchLeft(length, n)
  {
    ShorterIsCheaper(length, length', n');
  }

  ghost function SearchBudget(length: int): int {
    4 * length * (length + 1)
  }

  lemma SearchFits(length: int)
    requires length >= 1
    ensures SearchLeft(length, 2) <= SearchBudget(length)
  {
    assert 4 * length * (length + 1) == 4 * (length - 1) * length + 8 * length;
  }

  lemma SearchNotNegative(length: int, n: int)
    requires length >= 1 && 2 <= n <= Max(2, length)
    ensures SearchLeft(length, n) >= 0
  {
    assert 4 * (length - 1) * length >= 0;
  }

  // A round tries every subset and every complement once.
  lemma RoundCost(length: int, n: int)
    requires 2 <= n <= length
    ensures n < length ==> 1 + 2 * n + SearchLeft(length, Min(length, n * 2)) <= SearchLeft(length, n)
    ensures 1 + 2 * n <= SearchLeft(length, n)
  {
    assert 4 * (length - 1) * length >= 0;
  }

  // ----- the two phases

  // A smaller failing subsequence of s.
  ghost predicate Improves<T>(s: seq<T>, kept: seq<T>, fails: seq<T> -> bool) {
    kept != [] && |kept| < |s| && IsSubseq(kept, s) && fails(kept)
  }

  // What a row of tries is charged when none of them succeeds: one try past the budget is counted, and not made.
  function Charged(begun: int, tries: nat, maxIterations: int): int {
    if begun + tries <= maxIterations then begun + tries else Max(begun, maxIterations) + 1
  }

  ghost predicate NoneOfFirst<T>(cs: seq<seq<T>>, t: int, fails: seq<T> -> bool) {
    forall i :: 0 <= i < t && i < |cs| ==> !fails(cs[i])
  }

  lemma ChargedInFull(begun: int, n: nat, maxIterations: int)
    requires begun <= maxIterations && Charged(begun, n, maxIterations) <= maxIterations
    ensures Charged(begun, n, maxIterations) == begun + n
  {
  }

  lemma ChargedTwice(begun: int, n: nat, maxIterations: int)
    requires n >= 2 && 0 <= begun < maxIterations
    ensures var between := Charged(begun + 1, n, maxIterations);
      var total := Charged(between, n, maxIterations);
      && begun < between <= maxIterations + 1 && between <= total <= Min(maxIterations + 2, begun + 1 + 2 * n)
      && (maxIterations == 1 ==> total == 3)
  {
  }

  // The first failing part, within the budget.
  method TrySubsets<T(==)>(current: seq<T>, parts: seq<seq<T>>, fails: seq<T> -> bool, begun: int, maxIterations: int)
    returns (found: Option<seq<T>>, iterations: int)
    requires Parts(current, parts) && begun <= maxIterations
    ensures found.Some? ==> begun < iterations <= Min(begun + |parts|, maxIterations)
                            && Improves(current, found.value, fails)
                            && FirstToFail(parts, iterations - begun - 1, found.value, fails)
    ensures found.None? ==> iterations == Charged(begun, |parts|, maxIterations)
                            && NoneOfFirst(parts, maxIterations - begun, fails)
  {
    iterations := begun;
    for i := 0 to |parts|
      invariant iterations == begun + i <= maxIterations
      invariant forall j :: 0 <= j < i ==> !fails(parts[j])
    {
      iterations := iterations + 1;
      if iterations > maxIterations {
        return None, iterations;
      }
      if parts[i] != [] && fails(parts[i]) {
        var k := PartOccurs(parts, i);
        CutOutIsSubseq(current, parts[i], k);
        return Some(parts[i]), iterations;
      }
    }
    found := None;
  }

  lemma ComplementAt<T>(s: seq<T>, parts: seq<seq<T>>, i: nat)
    requires i < |parts|
    ensures Complements(s, parts)[i] == Remainder(s, parts[i])
  {
    hide Remainder;
  }

  lemma ComplementShrinks<T>(s: seq<T>, parts: seq<seq<T>>, i: nat)
    requires Parts(s, parts) && i < |parts|
    ensures var r := Remainder(s, parts[i]);
      r != [] && |parts| - 1 <= |r| < |s| && IsSubseq(r, s)
  {
    hide IsSubseq, Flatten, Remainder, OccursAt, Without;
    var k := PartOccurs(parts, i);
    RemainderExactly(s, parts[i], k);
  }

  // The first failing complement of a part, within the budget.
  method TryComplements<T(==)>(current: seq<T>, parts: seq<seq<T>>, fails: seq<T> -> bool, begun: int, maxIterations: int)
    returns (found: Option<seq<T>>, iterations: int)
    requires Parts(current, parts) && begun <= maxIterations + 1
    ensures found.Some? ==> begun < iterations <= Min(begun + |parts|, maxIterations)
                            && Improves(current, found.value, fails) && |found.value| >= |parts| - 1
                            && FirstToFail(Complements(current, parts), iterations - begun - 1, found.value, fails)
    ensures found.None? ==> iterations == Charged(begun, |parts|, maxIterations)
                            && NoneOfFirst(Complements(current, parts), maxIterations - begun, fails)
  {
    hide Remainder, Complements, IsSubseq, Flatten, OccursAt, Without;
    iterations := begun;
    for i := 0 to |parts|
      invariant iterations == begun + i && (i > 0 ==> iterations <= maxIterations)
      invariant NoneOfFirst(Complements(current, parts), i, fails)
    {
      ComplementAt(current, parts, i);
      iterations := iterations + 1;
      if iterations > maxIterations {
        return None, iterations;
      }
      ComplementShrinks(current, parts, i);
      var complement := ComplementOf(current, parts[i]);
      if complement != [] && fails(complement) {
        return Some(complement), iterations;
      }
    }
    found := None;
  }

  // ----- a round's part in the search

  // The rounds to come, from this granularity on, find what comes next; or it lies beyond the budget.
  ghost predicate Pending<T>(next: Outcome<T>, current: seq<T>, n: nat, iterations: int, maxIterations: int,
                             fails: seq<T> -> bool)
  {
    if iterations <= maxIterations then next == Search(current, n, iterations, fails)
    else BeyondBudget(next, maxIterations)
  }

  ghost predicate BeyondBudget<T>(next: Outcome<T>, maxIterations: int) {
    (if next.Hit? then next.step.iteration else next.iterations) > maxIterations
  }

  // The search stops here.
  ghost predicate EndsAt<T>(next: Outcome<T>, iterations: int, maxIterations: int) {
    next == Stuck(iterations) || (BeyondBudget(next, maxIterations) && iterations >= maxIterations)
  }

  lemma {:induction false} HitsLater<T>(current: seq<T>, n: nat, iterations: int, fails: seq<T> -> bool)
    ensures var next := Search(current, n, iterations, fails);
      && (next.Hit? ==> next.step.iteration >= iterations + 2)
      && (next.Stuck? ==> next.iterations >= iterations)
      && (next.Stuck? && 2 <= n <= |current| ==> next.iterations >= iterations + 1 + 2 * n)
    decreases |current| - n
  {
    hide Candidates;
    if 2 <= n < |current| {
      HitsLater(current, Min(|current|, 2 * n), iterations + 1 + 2 * n, fails);
    }
  }

  lemma PendingStops<T>(next: Outcome<T>, current: seq<T>, n: nat, iterations: int, maxIterations: int, fails: seq<T> -> bool)
    requires Pending(next, current, n, iterations, maxIterations, fails) && (|current| <= 1 || iterations >= maxIterations)
    requires 2 <= n <= Max(2, |current|)
    ensures EndsAt(next, iterations, maxIterations)
  {
    HitsLater(current, n, iterations, fails);
    hide Candidates;
  }

  lemma PendingRound<T>(next: Outcome<T>, current: seq<T>, n: nat, iterations: int, maxIterations: int, fails: seq<T> -> bool)
    requires Pending(next, current, n, iterations, maxIterations, fails) && iterations < maxIterations
    ensures next == Search(current, n, iterations, fails)
  {
    hide Search;
  }

  lemma CandidateAt<T>(current: seq<T>, n: nat, i: nat)
    requires 2 <= n <= |current| && i < 2 * n
    ensures |Candidates(current, n)| == 2 * n && |Cuts(current, n)| == |Complements(current, Cuts(current, n))| == n
    ensures Candidates(current, n)[i]
         == if i < n then Cuts(current, n)[i] else Complements(current, Cuts(current, n))[i - n]
  {
    hide Remainder;
  }

  lemma FirstIs<T>(cs: seq<seq<T>>, j: nat, fails: seq<T> -> bool)
    requires j < |cs| && fails(cs[j]) && forall i :: 0 <= i < j ==> !fails(cs[i])
    ensures FirstFailing(cs, fails) == j
  {
  }

  lemma SubsetFound<T>(current: seq<T>, n: nat, begun: int, j: nat, kept: seq<T>, fails: seq<T> -> bool)
    requires 2 <= n <= |current| && FirstToFail(Cuts(current, n), j, kept, fails)
    ensures Search(current, n, begun, fails) == Hit(ReductionStep(begun + 2 + j, Subset, |current|, |kept|, kept), 2)
  {
    hide Candidates, Cuts, Complements, Search;
    CandidateAt(current, n, 0);
    forall i | 0 <= i <= j
      ensures Candidates(current, n)[i] == Cuts(current, n)[i]
    {
      CandidateAt(current, n, i);
    }
    CandidateFound(current, n, begun, j, kept, fails);
  }

  lemma ComplementFound<T>(current: seq<T>, n: nat, begun: int, j: nat, kept: seq<T>, fails: seq<T> -> bool)
    requires 2 <= n <= |current| && FirstToFail(Complements(current, Cuts(current, n)), j, kept, fails)
    requires NoneOfFirst(Cuts(current, n), n, fails)
    ensures Search(current, n, begun, fails)
         == Hit(ReductionStep(begun + 2 + n + j, Complement, |current|, |kept|, kept), Max(n - 1, 2))
  {
    hide Candidates, Cuts, Complements, Search;
    CandidateAt(current, n, 0);
    forall i | 0 <= i <= n + j
      ensures i < n ==> Candidates(current, n)[i] == Cuts(current, n)[i]
      ensures i >= n ==> Candidates(current, n)[i] == Complements(current, Cuts(current, n))[i - n]
    {
      CandidateAt(current, n, i);
    }
    CandidateFound(current, n, begun, n + j, kept, fails);
  }

  lemma CandidateFound<T>(current: seq<T>, n: nat, begun: int, j: nat, kept: seq<T>, fails: seq<T> -> bool)
    requires 2 <= n <= |current| && FirstToFail(Candidates(current, n), j, kept, fails)
    ensures Search(current, n, begun, fails)
         == Hit(ReductionStep(begun + 2 + j, if j < n then Subset else Complement, |current|, |kept|, kept),
                if j < n then 2 else Max(n - 1, 2))
  {
    hide Candidates, Cuts, Complements;
    FirstIs(Candidates(current, n), j, fails);
    RoundHits(current, n, begun, fails);
  }

  // The first t candidates of a round do not fail: the search finds something only after them.
  lemma RoundTried<T>(current: seq<T>, n: nat, begun: int, t: nat, fails: seq<T> -> bool)
    requires 2 <= n <= |current| && t <= 2 * n && |Candidates(current, n)| == 2 * n
    requires forall i :: 0 <= i < t ==> !fails(Candidates(current, n)[i])
    ensures var next := Search(current, n, begun, fails);
      && (t < 2 * n ==> if next.Hit? then next.step.iteration >= begun + 2 + t else next.iterations >= begun + 2 + t)
      && (t == 2 * n ==> next == if n == |current| then Stuck(begun + 1 + 2 * n)
                                 else Search(current, Min(|current|, 2 * n), begun + 1 + 2 * n, fails))
  {
    hide Candidates;
    if t < 2 * n && n < |current| {
      HitsLater(current, Min(|current|, 2 * n), begun + 1 + 2 * n, fails);
    }
  }

  lemma AllTried<T>(cs: seq<seq<T>>, t: int, n: int, fails: seq<T> -> bool)
    requires NoneOfFirst(cs, t, fails) && t >= |cs|
    ensures NoneOfFirst(cs, n, fails)
  {
  }

  // A round without a find.
  lemma RoundOver<T>(next: Outcome<T>, current: seq<T>, n: nat, begun: int, iterations: int, maxIterations: int,
                     fails: seq<T> -> bool)
    requires 2 <= n <= |current| && begun < maxIterations && next == Search(current, n, begun, fails)
    requires var between := Charged(begun + 1, n, maxIterations);
      && NoneOfFirst(Cuts(current, n), maxIterations - (begun + 1), fails)
      && NoneOfFirst(Complements(current, Cuts(current, n)), maxIterations - between, fails)
      && iterations == Charged(between, n, maxIterations)
    ensures n == |current| ==> EndsAt(next, iterations, maxIterations)
    ensures n < |current| ==> Pending(next, current, Min(|current|, n * 2), iterations, maxIterations, fails)
  {
    hide Candidates, Cuts, Complements, Search, Remainder;
    var t := Min(2 * n, maxIterations - begun - 1);
    CandidateAt(current, n, 0);
    forall i | 0 <= i < t
      ensures !fails(Candidates(current, n)[i])
    {
      CandidateAt(current, n, i);
    }
    RoundTried(current, n, begun, t, fails);
  }

  // Granularity rounds only, so far.
  ghost predicate Rounds<T>(original: seq<T>, steps: seq<ReductionStep<T>>, fails: seq<T> -> bool) {
    Ordered(original, steps, fails) && forall i :: 0 <= i < |steps| ==> !steps[i].kind.DropOne?
  }

  lemma RoundsBegin<T>(original: seq<T>, fails: seq<T> -> bool, maxIterations: int)
    ensures Rounds(original, [], fails) && Pending(Next(original, [], fails), original, 2, 0, maxIterations, fails)
  {
    hide Search;
    assert Next(original, [], fails) == Search(original, 2, 0, fails);
    HitsLater(original, 2, 0, fails);
  }

  // A find is recorded, and the search goes on from what it kept.
  lemma TookRound<T>(original: seq<T>, current: seq<T>, steps: seq<ReductionStep<T>>, kind: Kind, kept: seq<T>,
                     iterations: int, grain: nat, maxIterations: int, fails: seq<T> -> bool)
    requires Rounds(original, steps, fails) && !kind.DropOne? && iterations <= maxIterations
    requires Next(original, steps, fails) == Hit(ReductionStep(iterations, kind, |current|, |kept|, kept), grain)
    ensures var steps' := steps + [ReductionStep(iterations, kind, |current|, |kept|, kept)];
      Rounds(original, steps', fails) && Pending(Next(original, steps', fails), kept, grain, iterations, maxIterations, fails)
  {
    hide Rounds, Next, Search;
    Took(original, steps, ReductionStep(iterations, kind, |current|, |kept|, kept), grain, fails);
  }

  lemma Took<T>(original: seq<T>, steps: seq<ReductionStep<T>>, step: ReductionStep<T>, grain: nat, fails: seq<T> -> bool)
    requires Rounds(original, steps, fails) && !step.kind.DropOne? && Next(original, steps, fails) == Hit(step, grain)
    ensures Rounds(original, steps + [step], fails)
    ensures Next(original, steps + [step], fails) == Search(step.kept, grain, step.iteration, fails)
  {
    hide Ordered, Search;
    OrderedExtends(original, steps, step, fails);
  }

  lemma TookDrop<T(!new)>(original: seq<T>, current: seq<T>, steps: seq<ReductionStep<T>>, fails: seq<T> -> bool, begun: int, i: nat)
    requires Reached(original, current, steps, fails, begun)
    requires Ordered(original, steps, fails) && DropsBegin(original, steps, begun, fails)
    requires i < |current| && fails(Dropped(current, i)) && forall j :: 0 <= j < i ==> !fails(Dropped(current, j))
    ensures var kept := Dropped(current, i);
      var steps' := steps + [ReductionStep(begun + i + 1, DropOne, |current|, |kept|, kept)];
      Ordered(original, steps', fails) && DropsBegin(original, steps', begun + i + 1, fails) && Dropping(steps')
  {
    hide Ordered, Next, Chain, IsSubseq;
    var kept := Dropped(current, i);
    FirstIs(Drops(current), i, fails);
    var step := ReductionStep(begun + i + 1, DropOne, |current|, |kept|, kept);
    assert DropStep(current, begun, step, fails);
    assert Expected(original, steps, step, fails);
    OrderedExtends(original, steps, step, fails);
  }

  // Two elements that only fail together.
  ghost predicate IrreduciblePair<T(!new)>(s: seq<T>, fails: seq<T> -> bool) {
    |s| == 2 && OneMinimal(s, fails)
  }

  lemma PairCandidates<T>(s: seq<T>, i: nat)
    requires |s| == 2 && i < 4
    ensures |Candidates(s, 2)| == 4 && Candidates(s, 2)[i] in [Dropped(s, 0), Dropped(s, 1)]
  {
    hide *;
    CandidateAt(s, 2, i);
    PairDrops(s);
    PairCuts(s);
    if i >= 2 {
      ComplementAt(s, Cuts(s, 2), i - 2);
      PairRemainder(s, i - 2);
    }
  }

  lemma PairDrops<T>(s: seq<T>)
    requires |s| == 2
    ensures Dropped(s, 0) == [s[1]] && Dropped(s, 1) == [s[0]]
  {
  }

  lemma PairCuts<T>(s: seq<T>)
    requires |s| == 2
    ensures |Cuts(s, 2)| == 2 && Cuts(s, 2)[0] == [s[0]] && Cuts(s, 2)[1] == [s[1]]
  {
    assert Cut(2, 2, 0) == 0 && Cut(2, 2, 1) == 1 && Cut(2, 2, 2) == 2;
    assert PieceAt(s, 2, 0) == s[0..1] && PieceAt(s, 2, 1) == s[1..2];
  }

  lemma PairRemainder<T>(s: seq<T>, j: nat)
    requires |s| == 2 && j < 2
    ensures Remainder(s, [s[j]]) == [s[0]] || Remainder(s, [s[j]]) == [s[1]]
  {
    var piece := [s[j]];
    var k := Occurrence(s, piece, 0);
    assert OccursAt(s, piece, j);
    assert k.value == 0 ==> s[..0] + s[1..] == [s[1]];
    assert k.value == 1 ==> s[..1] + s[2..] == [s[0]];
  }

  // No round reduces such a pair, and the only one is charged five.
  lemma PairEnds<T(!new)>(original: seq<T>, current: seq<T>, steps: seq<ReductionStep<T>>, iterations: int, maxIterations: int,
                          fails: seq<T> -> bool)
    requires Rounds(original, steps, fails) && EndsAt(Next(original, steps, fails), iterations, maxIterations)
    requires Reached(original, current, steps, fails, iterations)
    ensures IrreduciblePair(original, fails) && maxIterations >= 5 ==> current == original && iterations == 5
  {
    hide Candidates, Search, Chain, IsSubseq;
    if IrreduciblePair(original, fails) && maxIterations >= 5 {
      assert !fails(Dropped(original, 0)) && !fails(Dropped(original, 1));
      forall i | 0 <= i < |Candidates(original, 2)|
        ensures !fails(Candidates(original, 2)[i])
      {
        PairCandidates(original, 0);
        PairCandidates(original, i);
      }
      RoundInVain(original, 2, 0, fails);
      assert Next(original, [], fails) == Stuck(5);
      FirstRoundFinds(original, steps, fails);
    }
  }

  lemma FirstRoundFinds<T>(original: seq<T>, steps: seq<ReductionStep<T>>, fails: seq<T> -> bool)
    requires Rounds(original, steps, fails)
    ensures steps != [] ==> Next(original, [], fails).Hit?
  {
    hide Next;
    if steps != [] {
      assert Expected(original, steps[..0], steps[0], fails);
    }
  }

  // The rounds to come are paid for.
  ghost predicate Affordable(iterations: int, length: int, n: int, whole: int) {
    iterations + SearchLeft(length, n) <= SearchBudget(whole) && SearchLeft(length, n) >= 0
  }

  lemma AffordableFirst(length: int)
    requires length >= 1
    ensures Affordable(0, length, 2, length)
  {
    hide SearchLeft, SearchBudget;
    SearchFits(length);
    SearchNotNegative(length, 2);
  }

  lemma AffordableNext(begun: int, iterations: int, length: int, n: int, whole: int)
    requires Affordable(begun, length, n, whole) && 2 <= n <= length && iterations <= begun + 1 + 2 * n
    ensures iterations <= SearchBudget(whole)
    ensures n < length ==> Affordable(iterations, length, Min(length, n * 2), whole)
  {
    hide SearchLeft, SearchBudget;
    RoundCost(length, n);
    SearchNotNegative(length, Min(length, n * 2));
  }

  lemma AffordableFits(iterations: int, length: int, n: int, whole: int)
    requires Affordable(iterations, length, n, whole)
    ensures iterations <= SearchBudget(whole)
  {
    hide SearchLeft, SearchBudget;
  }

  lemma Improved<T(!new)>(original: seq<T>, current: seq<T>, steps: seq<ReductionStep<T>>, fails: seq<T> -> bool,
                          begun: int, iterations: int, kind: Kind, kept: seq<T>, n: int, n': int)
    requires Reached(original, current, steps, fails, begun) && Improves(current, kept, fails)
    requires 0 <= begun < iterations <= begun + 1 + 2 * n && 2 <= n <= |current| && 2 <= n' <= Max(2, |kept|)
    requires Affordable(begun, |current|, n, |original|)
    ensures Reached(original, kept, steps + [ReductionStep(iterations, kind, |current|, |kept|, kept)], fails, iterations)
    ensures 0 < |kept| < |current|
    ensures Affordable(iterations, |kept|, n', |original|)
  {
    hide Reached, IsSubseq, SearchBudget, SearchLeft;
    SearchAdvances(original, current, steps, fails, begun, iterations, kind, kept);
    ReductionPays(|current|, n, |kept|, n');
    SearchNotNegative(|kept|, n');
  }

  // Granularity search.
  method ReduceByGranules<T(==, !new)>(original: seq<T>, fails: seq<T> -> bool, maxIterations: int)
    returns (current: seq<T>, iterations: int, steps: seq<ReductionStep<T>>)
    requires original != [] && fails(original)
    ensures Reached(original, current, steps, fails, iterations) && iterations >= 0
    ensures maxIterations >= 0 ==> iterations <= maxIterations + 2
    ensures maxIterations < 0 ==> iterations == 0
    ensures |current| <= |original|
    ensures iterations <= SearchBudget(|original|)
    ensures |original| >= 2 && maxIterations == 1 ==> iterations == 3
    ensures IrreduciblePair(original, fails) && maxIterations >= 5 ==> current == original && iterations == 5
    // The rounds are the source's, and stop only where they get stuck or the next find is past the budget.
    ensures Rounds(original, steps, fails) && EndsAt(Next(original, steps, fails), iterations, maxIterations)
  {
    hide IrreduciblePair, Reached, Improves, SearchBudget, SearchLeft, RoundsLeft, Parts, Rounds, Next, Search, Pending,
      EndsAt, Cuts, Complements, FirstToFail, Affordable, IsSubseq, Flatten, Remainder, OneMinimal, NoneOfFirst,
      Charged;
    current := original;
    var n := 2;
    iterations := 0;
    steps := [];
    SearchStarts(original, fails);
    AffordableFirst(|original|);
    RoundsBegin(original, fails, maxIterations);
    ghost var stuck := false;
    while |current| > 1 && iterations < maxIterations
      invariant Reached(original, current, steps, fails, iterations)
      invariant 2 <= n <= Max(2, |current|) && 0 <= iterations && 1 <= |current| <= |original|
      invariant if maxIterations < 0 then iterations == 0 else iterations <= maxIterations + 2
      invariant Affordable(iterations, |current|, n, |original|)
      invariant |original| >= 2 && maxIterations == 1 ==> iterations == 3 || (iterations == 0 && current == original)
      invariant !stuck && Rounds(original, steps, fails)
      invariant Pending(Next(original, steps, fails), current, n, iterations, maxIterations, fails)
      decreases |current|, |current| - n
    {
      PendingRound(Next(original, steps, fails), current, n, iterations, maxIterations, fails);
      var begun := iterations;
      ChargedTwice(begun, n, maxIterations);
      iterations := iterations + 1;
      var subsets := Partition(current, n);
      var found;
      found, iterations := TrySubsets(current, subsets, fails, iterations, maxIterations);
      if found.Some? {
        Improved(original, current, steps, fails, begun, iterations, Subset, found.value, n, 2);
        SubsetFound(current, n, begun, iterations - begun - 2, found.value, fails);
        TookRound(original, current, steps, Subset, found.value, iterations, 2, maxIterations, fails);
        steps := steps + [ReductionStep(iterations, Subset, |current|, |found.value|, found.value)];
        current := found.value;
        n := 2;
        continue;
      }
      found, iterations := TryComplements(current, subsets, fails, iterations, maxIterations);
      if found.Some? {
        ChargedInFull(begun + 1, n, maxIterations);
        Improved(original, current, steps, fails, begun, iterations, Complement, found.value, n, Max(n - 1, 2));
        AllTried(subsets, maxIterations - begun - 1, n, fails);
        ComplementFound(current, n, begun, iterations - begun - 2 - n, found.value, fails);
        TookRound(original, current, steps, Complement, found.value, iterations, Max(n - 1, 2), maxIterations, fails);
        steps := steps + [ReductionStep(iterations, Complement, |current|, |found.value|, found.value)];
        current := found.value;
        n := Max(n - 1, 2);
        continue;
      }
      SearchWaits(original, current, steps, fails, begun, iterations);
      AffordableNext(begun, iterations, |current|, n, |original|);
      RoundOver(Next(original, steps, fails), current, n, begun, iterations, maxIterations, fails);
      if n >= |current| {
        stuck := true;
        break;
      }
      n := Min(|current|, n * 2);
    }
    if !stuck {
      AffordableFits(iterations, |current|, n, |original|);
      PendingStops(Next(original, steps, fails), current, n, iterations, maxIterations, fails);
    }
    PairEnds(original, current, steps, iterations, maxIterations, fails);
  }

  // Drop single elements until none can go; each pass is charged in full, without a check of the budget.
  method DropSingles<T(!new)>(original: seq<T>, start: seq<T>, fails: seq<T> -> bool, maxIterations: int,
                              begun: int, recorded: seq<ReductionStep<T>>)
    returns (current: seq<T>, iterations: int, steps: seq<ReductionStep<T>>)
    requires Reached(original, start, recorded, fails, begun) && begun >= 0
    requires Rounds(original, recorded, fails) && EndsAt(Next(original, recorded, fails), begun, maxIterations)
    ensures Reached(original, current, steps, fails, iterations) && begun <= iterations
    // Each drop is the first that fails.
    ensures Ordered(original, steps, fails) && (steps == recorded || Dropping(steps))
    ensures iterations < maxIterations ==> OneMinimal(current, fails)
    ensures iterations <= Max(begun, maxIterations - 1 + |start|)
    ensures iterations <= begun + DropsLeft(|start|)
    ensures begun >= maxIterations ==> iterations == begun
    ensures IrreduciblePair(start, fails) && begun < maxIterations ==> iterations == begun + 2
  {
    hide Reached, IsSubseq, DropsLeft, Ordered, Next;
    current, iterations, steps := start, begun, recorded;
    ReachedNotEmpty(original, current, steps, fails, iterations);
    DropsNotNegative(|current|);
    var changed := true;
    while changed && |current| > 1 && iterations < maxIterations
      invariant Reached(original, current, steps, fails, iterations)
      invariant begun <= iterations && 0 < |current| <= |start|
      invariant !changed ==> OneMinimal(current, fails)
      invariant iterations <= Max(begun, maxIterations - 1 + |start|)
      invariant Ordered(original, steps, fails) && (steps == recorded || Dropping(steps))
      invariant changed && iterations < maxIterations ==> DropsBegin(original, steps, iterations, fails)
      invariant iterations + (if changed then DropsLeft(|current|) else 0) <= begun + DropsLeft(|start|)
      invariant begun >= maxIterations ==> iterations == begun
      invariant IrreduciblePair(start, fails) ==> current == start && iterations == if changed then begun else begun + 2
      decreases |current|, changed
    {
      changed := false;
      ghost var entered := iterations;
      DropsShrink(|current|);
      DropsNotNegative(|current| - 1);
      for i := 0 to |current|
        invariant iterations == entered + i && !changed
        invariant forall j :: 0 <= j < i ==> !fails(Dropped(current, j))
      {
        iterations := iterations + 1;
        var candidate := Dropped(current, i);
        if candidate != [] && fails(candidate) {
          DroppedIsSubseq(current, i);
          SearchAdvances(original, current, steps, fails, entered, iterations, DropOne, candidate);
          TookDrop(original, current, steps, fails, entered, i);
          steps := steps + [ReductionStep(iterations, DropOne, |current|, |candidate|, candidate)];
          current := candidate;
          changed := true;
          break;
        }
      }
      if !changed {
        SearchWaits(original, current, steps, fails, entered, iterations);
      }
    }
    DropsNotNegative(|current|);
  }

  lemma ReachedNotEmpty<T(!new)>(original: seq<T>, current: seq<T>, steps: seq<ReductionStep<T>>, fails: seq<T> -> bool,
                                 iterations: int)
    requires Reached(original, current, steps, fails, iterations)
    ensures 0 < |current|
  {
  }

  lemma DropsNotNegative(length: int)
    requires length >= 0
    ensures DropsLeft(length) >= 0
  {
    assert length * (length + 1) >= 0;
  }

  lemma DropsMonotone(a: int, b: int)
    requires 0 <= a <= b
    ensures DropsLeft(a) <= DropsLeft(b)
    decreases b - a
  {
    if a < b {
      DropsShrink(b);
      DropsMonotone(a, b - 1);
    }
  }

  lemma TotalCost(length: int)
    requires length >= 0
    ensures SearchBudget(length) + DropsLeft(length) <= 5 * length * length + 5 * length
  {
    assert SearchBudget(length) == 4 * (length * length) + 4 * length;
    assert length * (length + 1) == length * length + length;
    assert length * length >= 0;
  }

  // ddmin: what it returns, what it recorded, and what it cost.
  method MinimizeCounterexample<T(==, !new)>(sequence: seq<T>, fails: seq<T> -> bool, maxIterations: int)
    returns (r: MinimizationResult<T>)
    ensures r.original == sequence
    ensures sequence == [] || !fails(sequence) ==> r == MinimizationResult(sequence, sequence, 0, false, [])
    ensures sequence != [] && fails(sequence) ==>
      && r.preservedFailure && fails(r.minimized) && r.minimized != [] && IsSubseq(r.minimized, sequence)
      && Chain(sequence, r.reductionSteps, fails, r.iterations) && Latest(sequence, r.reductionSteps) == r.minimized
    // Every recorded step keeps the first candidate that fails, of the rounds and drops the source goes through, and is
    // recorded with its kind and count; the rounds end only where nothing more fails or the next find is past the budget.
    ensures sequence != [] && fails(sequence) ==> Ordered(sequence, r.reductionSteps, fails)
    ensures sequence != [] && fails(sequence) && !Dropping(r.reductionSteps) ==>
      Next(sequence, r.reductionSteps, fails).Stuck? || BeyondBudget(Next(sequence, r.reductionSteps, fails), maxIterations)
    ensures sequence != [] && fails(sequence) && r.iterations < maxIterations ==> OneMinimal(r.minimized, fails)
    ensures 0 <= r.iterations <= Max(maxIterations, 0) + Max(2, |sequence| - 1)
    ensures r.iterations <= 5 * |sequence| * |sequence| + 5 * |sequence|
    // A budget above the quadratic bound is never reached, and leaves nothing to drop.
    ensures sequence != [] && fails(sequence) && maxIterations > 5 * |sequence| * |sequence| + 5 * |sequence| ==>
      r.iterations < maxIterations && OneMinimal(r.minimized, fails)
    // The budget is overrun: by two in the first phase, whatever fails, and by one element's try in the second.
    ensures |sequence| >= 2 && fails(sequence) && maxIterations == 1 ==> r.iterations == 3
    ensures IrreduciblePair(sequence, fails) && fails(sequence) && maxIterations == 6 ==> r.iterations == 7
  {
    TotalCost(|sequence|);
    if sequence == [] || !fails(sequence) {
      return MinimizationResult(sequence, sequence, 0, false, []);
    }
    var current, iterations, steps := ReduceByGranules(sequence, fails, maxIterations);
    DropsMonotone(|current|, |sequence|);
    current, iterations, steps := DropSingles(sequence, current, fails, maxIterations, iterations, steps);
    r := MinimizationResult(sequence, current, iterations, fails(current), steps);
  }
}
