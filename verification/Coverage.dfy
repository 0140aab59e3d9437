/** What the paired interval and the verdict promise over repeated sampling. */
module Coverage {
  import opened Wrappers
  import opened Binomial
  import opened Bisection
  import opened PairedEquivalence
  import opened Sampling

  // ----- one Clopper-Pearson end

  // The lower end, taken at the left of its bracket, lies above p after k successes.
  ghost predicate AboveTruth(k: int, n: nat, tail: real, p: real) {
    0 < k <= n && p < LowerBracket(k, n, tail).lower
  }

  ghost predicate BelowTruth(k: int, n: nat, tail: real, p: real) {
    0 <= k < n && p > UpperBracket(k, n, tail).upper
  }

  ghost function LowerMisses(t: Table, cell: Pair, n: nat, tail: real): Event {
    samples => AboveTruth(Count(samples, cell), n, tail, t.Of(cell))
  }

  ghost function UpperMisses(t: Table, cell: Pair, n: nat, tail: real): Event {
    samples => BelowTruth(Count(samples, cell), n, tail, t.Of(cell))
  }

  // The least count from k to n with the property, or n + 1.
  ghost function LeastWhere(has: int -> bool, k: nat, n: nat): (r: nat)
    requires k <= n + 1
    ensures k <= r <= n + 1 && (r <= n ==> has(r))
    ensures forall j :: k <= j < r ==> !has(j)
    decreases n + 1 - k
  {
    if k == n + 1 || has(k) then k else LeastWhere(has, k + 1, n)
  }

  // The greatest count from 0 to k with the property, or -1.
  ghost function GreatestWhere(has: int -> bool, k: int): (r: int)
    requires -1 <= k
    ensures -1 <= r <= k && (r >= 0 ==> has(r))
    ensures forall j :: r < j <= k ==> !has(j)
    decreases k + 1
  {
    if k == -1 || has(k) then k else GreatestWhere(has, k - 1)
  }

  // The lower end overshoots the true probability with chance at most tail.
  lemma LowerEndRarelyMisses(t: Table, cell: Pair, n: nat, tail: real)
    requires t.Valid() && 0.0 < tail <= 1.0
    ensures Prob(t, n, LowerMisses(t, cell, n, tail)) <= tail
  {
    hide Prob, Between, UpperTail, Cdf, LowerBracket, UpperBracket;
    var p := t.Of(cell);
    var above := i => AboveTruth(i, n, tail, p);
    var k := LeastWhere(above, 0, n);
    if k > n {
      forall s: seq<Pair> | |s| == n
        ensures !LowerMisses(t, cell, n, tail)(s)
      {
        assert !above(Count(s, cell));
      }
      NeverHasNoChance(t, n, LowerMisses(t, cell, n, tail));
    } else {
      var lo := LowerBracket(k, n, tail).lower;
      forall s: seq<Pair> | |s| == n && LowerMisses(t, cell, n, tail)(s)
        ensures CountBetween(cell, k, n)(s)
      {
        assert above(Count(s, cell));
      }
      ProbMonotone(t, n, LowerMisses(t, cell, n, tail), CountBetween(cell, k, n));
      CellCountIsBinomial(t, n, cell, k, n);
      UpperTailExact(k, n, p);
      LowerEndSolves(k, n, tail);
      BracketInUnit(k, n, tail);
      UpperTailNondecreasing(k, n, p, lo);
    }
  }

  lemma BracketInUnit(k: int, n: nat, tail: real)
    ensures 0.0 <= LowerBracket(k, n, tail).lower <= 1.0
    ensures 0.0 <= UpperBracket(k, n, tail).upper <= 1.0
  {
    SearchSound(tail, UpperTailOf(k, n), true);
    SearchSound(tail, CdfOf(k, n), false);
  }

  // The upper end undershoots the true probability with chance at most tail.
  lemma UpperEndRarelyMisses(t: Table, cell: Pair, n: nat, tail: real)
    requires t.Valid() && 0.0 < tail < 1.0
    ensures Prob(t, n, UpperMisses(t, cell, n, tail)) <= tail
  {
    hide Prob, Between, UpperTail, Cdf, LowerBracket, UpperBracket;
    var p := t.Of(cell);
    var below := i => BelowTruth(i, n, tail, p);
    var k := GreatestWhere(below, n);
    if k < 0 {
      forall s: seq<Pair> | |s| == n
        ensures !UpperMisses(t, cell, n, tail)(s)
      {
        assert !below(Count(s, cell));
      }
      NeverHasNoChance(t, n, UpperMisses(t, cell, n, tail));
    } else {
      var hi := UpperBracket(k, n, tail).upper;
      forall s: seq<Pair> | |s| == n && UpperMisses(t, cell, n, tail)(s)
        ensures CountBetween(cell, 0, k)(s)
      {
        assert below(Count(s, cell));
      }
      ProbMonotone(t, n, UpperMisses(t, cell, n, tail), CountBetween(cell, 0, k));
      CellCountIsBinomial(t, n, cell, 0, k);
      CdfExact(k, n, p);
      UpperEndSolves(k, n, tail);
      BracketInUnit(k, n, tail);
      CdfNonincreasing(k, n, hi, p);
    }
  }

  // ----- the paired interval

  // Does the reported interval, widened by the bisection slack 2^-70, hold the true difference?
  ghost predicate Holds(e: Result<Estimate, string>, delta: real) {
    e.Ok? && e.value.lower - Half(STEPS) <= delta <= e.value.upper + Half(STEPS)
  }

  ghost function Covers(t: Table, z: real, normalCdf: real -> real): Event {
    samples => Holds(PairedRateDifference(samples, z, normalCdf), t.Delta())
  }

  ghost function Or(e: Event, f: Event): Event { samples => e(samples) || f(samples) }

  ghost function CellMisses(t: Table, cell: Pair, n: nat, tail: real): Event {
    Or(LowerMisses(t, cell, n, tail), UpperMisses(t, cell, n, tail))
  }

  lemma CellRarelyMisses(t: Table, cell: Pair, n: nat, tail: real)
    requires t.Valid() && 0.0 < tail < 1.0
    ensures Prob(t, n, CellMisses(t, cell, n, tail)) <= tail + tail
  {
    hide Prob, LowerMisses, UpperMisses;
    UnionBound(t, n, CellMisses(t, cell, n, tail), LowerMisses(t, cell, n, tail), UpperMisses(t, cell, n, tail));
    LowerEndRarelyMisses(t, cell, n, tail);
    UpperEndRarelyMisses(t, cell, n, tail);
  }

  // When neither end misses, the marginal interval holds the cell's probability up to 2^-71.
  lemma MarginalHolds(k: nat, n: nat, tail: real, p: real)
    requires k <= n && n > 0 && 0.0 < tail < 0.5 && 0.0 <= p <= 1.0
    requires !AboveTruth(k, n, tail, p) && !BelowTruth(k, n, tail, p)
    ensures LowerEnd(k, n, tail) - Half(STEPS + 1) <= p <= UpperEnd(k, n, tail) + Half(STEPS + 1)
  {
    hide UpperTail, Cdf, LowerBracket, UpperBracket, Half;
    if k > 0 {
      LowerEndSolves(k, n, tail);
    }
    if k < n {
      UpperEndSolves(k, n, tail);
    }
  }

  lemma NoMissThenCovered(t: Table, z: real, normalCdf: real -> real, samples: seq<Pair>)
    requires t.Valid() && samples != [] && 0.0 < NominalAlpha(z, normalCdf) < 1.0
    requires var n, tail := |samples|, NominalAlpha(z, normalCdf) / 4.0;
      !CellMisses(t, REF_ONLY, n, tail)(samples) && !CellMisses(t, CAND_ONLY, n, tail)(samples)
    ensures Covers(t, z, normalCdf)(samples)
  {
    hide LowerEnd, UpperEnd, AboveTruth, BelowTruth, NominalAlpha, Count;
    var n, tail := |samples|, NominalAlpha(z, normalCdf) / 4.0;
    assert NominalAlpha(z, normalCdf) / 2.0 / 2.0 == tail;
    MarginalHolds(Count(samples, REF_ONLY), n, tail, t.refOnly);
    MarginalHolds(Count(samples, CAND_ONLY), n, tail, t.candOnly);
  }

  // Bonferroni: the widened interval holds the true difference with probability at least 1 - alpha.
  lemma PairedIntervalCoverage(t: Table, n: nat, z: real, normalCdf: real -> real)
    requires t.Valid() && n > 0 && 0.0 < NominalAlpha(z, normalCdf) < 1.0
    ensures Prob(t, n, Covers(t, z, normalCdf)) >= 1.0 - NominalAlpha(z, normalCdf)
  {
    hide Prob, Covers, CellMisses, NominalAlpha;
    var alpha := NominalAlpha(z, normalCdf);
    var tail := alpha / 4.0;
    var covers, first, second :=
      Covers(t, z, normalCdf), CellMisses(t, REF_ONLY, n, tail), CellMisses(t, CAND_ONLY, n, tail);
    forall s: seq<Pair> | |s| == n && Not(covers)(s)
      ensures first(s) || second(s)
    {
      if !first(s) && !second(s) {
        NoMissThenCovered(t, z, normalCdf, s);
      }
    }
    UnionBound(t, n, Not(covers), first, second);
    CellRarelyMisses(t, REF_ONLY, n, tail);
    CellRarelyMisses(t, CAND_ONLY, n, tail);
    Complement(t, n, covers);
  }

  // ----- the verdict

  ghost function Concludes(status: VerdictStatus, tol: Tolerances, normalCdf: real -> real): Event {
    samples => StatisticalSuccess(samples, tol, normalCdf).status == status
  }

  // The declared error budget; a critical value that defines no level leaves nothing to spend.
  ghost function Budget(tol: Tolerances, normalCdf: real -> real): real {
    var alpha := NominalAlpha(tol.stochasticZ, normalCdf);
    if 0.0 < alpha < 1.0 then alpha else 0.0
  }

  ghost function Abs(x: real): real { if x >= 0.0 then x else -x }

  lemma ConclusionNeedsMiss(t: Table, n: nat, tol: Tolerances, normalCdf: real -> real, status: VerdictStatus)
    requires t.Valid() && status in {Match, Mismatch}
    requires forall s :: |s| == n && Concludes(status, tol, normalCdf)(s)
                     ==> !Covers(t, tol.stochasticZ, normalCdf)(s)
    ensures Prob(t, n, Concludes(status, tol, normalCdf)) <= Budget(tol, normalCdf)
  {
    hide Prob, Covers, NominalAlpha, PairedRateDifference;
    var covers := Covers(t, tol.stochasticZ, normalCdf);
    var alpha := NominalAlpha(tol.stochasticZ, normalCdf);
    if n > 0 && 0.0 < alpha < 1.0 {
      ProbMonotone(t, n, Concludes(status, tol, normalCdf), Not(covers));
      PairedIntervalCoverage(t, n, tol.stochasticZ, normalCdf);
      Complement(t, n, covers);
    } else {
      forall s: seq<Pair> | |s| == n
        ensures !Concludes(status, tol, normalCdf)(s)
      {
        NothingConcluded(s, tol, normalCdf);
      }
      NeverHasNoChance(t, n, Concludes(status, tol, normalCdf));
    }
  }

  lemma NothingConcluded(samples: seq<Pair>, tol: Tolerances, normalCdf: real -> real)
    requires samples == [] || !(0.0 < NominalAlpha(tol.stochasticZ, normalCdf) < 1.0)
    ensures StatisticalSuccess(samples, tol, normalCdf).status == Indeterminate
  {
  }

  // Systems that differ by more than the margin are declared equivalent with chance at most alpha.
  lemma FalseMatchControl(t: Table, n: nat, tol: Tolerances, normalCdf: real -> real)
    requires t.Valid()
    requires tol.equivalenceMargin.Some? ==> Abs(t.Delta()) > tol.equivalenceMargin.value + Half(STEPS)
    ensures Prob(t, n, Concludes(Match, tol, normalCdf)) <= Budget(tol, normalCdf)
  {
    hide Prob, PairedRateDifference, Half;
    ConclusionNeedsMiss(t, n, tol, normalCdf, Match);
  }

  // Systems within the margin are declared different with chance at most alpha.
  lemma FalseMismatchControl(t: Table, n: nat, tol: Tolerances, normalCdf: real -> real)
    requires t.Valid()
    requires tol.equivalenceMargin.Some? ==> Abs(t.Delta()) <= tol.equivalenceMargin.value - Half(STEPS)
    ensures Prob(t, n, Concludes(Mismatch, tol, normalCdf)) <= Budget(tol, normalCdf)
  {
    hide Prob, PairedRateDifference, Half;
    ConclusionNeedsMiss(t, n, tol, normalCdf, Mismatch);
  }
}
