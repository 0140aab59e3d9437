/** What the interval promises as it is reported, without widening: the bisection can cost n * 2^-69, and no more. */
module BareCoverage {
  import opened Wrappers
  import opened Binomial
  import opened Bisection
  import opened PairedEquivalence
  import opened Sampling
  import opened Coverage

  // Half a bracket's width of p moves a tail by this much at most.
  ghost function Slack(n: nat): real { n as real * Half(STEPS + 1) }

  ghost predicate Overshoots(k: int, n: nat, tail: real, p: real) { 0 <= k <= n && p < LowerEnd(k, n, tail) }

  ghost predicate Undershoots(k: int, n: nat, tail: real, p: real) { 0 <= k <= n && p > UpperEnd(k, n, tail) }

  ghost function LowerOvershoots(t: Table, cell: Pair, n: nat, tail: real): Event {
    samples => Overshoots(Count(samples, cell), n, tail, t.Of(cell))
  }

  ghost function UpperUndershoots(t: Table, cell: Pair, n: nat, tail: real): Event {
    samples => Undershoots(Count(samples, cell), n, tail, t.Of(cell))
  }

  lemma SlackCovers(n: nat, d: real)
    requires d <= Half(STEPS + 1)
    ensures n as real * d <= Slack(n)
  {
    hide Half;
    var h := Half(STEPS + 1);
    assert n as real * (h - d) >= 0.0;
  }

  // At a count whose lower end overshoots, the tail is within the slack.
  lemma TailAtOvershoot(k: int, n: nat, tail: real, p: real)
    requires Overshoots(k, n, tail, p) && 0.0 <= p <= 1.0 && 0.0 < tail <= 1.0
    ensures UpperTail(k, n, p) <= tail + Slack(n)
  {
    hide UpperTail, Cdf, LowerBracket, UpperBracket, Half, Slack;
    if k == 0 {
      assert false;
    } else {
      LowerEndSolves(k, n, tail);
      var lo := LowerBracket(k, n, tail).lower;
      SlackCovers(n, 0.0);
      if p <= lo {
        UpperTailNondecreasing(k, n, p, lo);
      } else {
        TailSlopes(k, n, lo, p);
        SlackCovers(n, p - lo);
      }
    }
  }

  lemma TailAtUndershoot(k: int, n: nat, tail: real, p: real)
    requires Undershoots(k, n, tail, p) && 0.0 <= p <= 1.0 && 0.0 < tail < 1.0
    ensures Cdf(k, n, p) <= tail + Slack(n)
  {
    hide UpperTail, Cdf, LowerBracket, UpperBracket, Half, Slack;
    if k == n {
      assert false;
    } else {
      UpperEndSolves(k, n, tail);
      var hi := UpperBracket(k, n, tail).upper;
      SlackCovers(n, 0.0);
      if p >= hi {
        CdfNonincreasing(k, n, hi, p);
      } else {
        TailSlopes(k, n, p, hi);
        SlackCovers(n, hi - p);
      }
    }
  }

  lemma OvershootIsRare(t: Table, cell: Pair, n: nat, tail: real)
    requires t.Valid() && 0.0 < tail < 1.0
    ensures Prob(t, n, LowerOvershoots(t, cell, n, tail)) <= tail + Slack(n)
  {
    hide Prob, Between, UpperTail, Cdf, LowerEnd, UpperEnd, Half;
    var p := t.Of(cell);
    var over := i => Overshoots(i, n, tail, p);
    var k := LeastWhere(over, 0, n);
    SlackCovers(n, 0.0);
    forall s: seq<Pair> | |s| == n && LowerOvershoots(t, cell, n, tail)(s)
      ensures k <= n && CountBetween(cell, k, n)(s)
    {
      assert over(Count(s, cell));
    }
    hide Slack;
    if k > n {
      NeverHasNoChance(t, n, LowerOvershoots(t, cell, n, tail));
    } else {
      ProbMonotone(t, n, LowerOvershoots(t, cell, n, tail), CountBetween(cell, k, n));
      CellCountIsBinomial(t, n, cell, k, n);
      UpperTailExact(k, n, p);
      TailAtOvershoot(k, n, tail, p);
    }
  }

  lemma UndershootIsRare(t: Table, cell: Pair, n: nat, tail: real)
    requires t.Valid() && 0.0 < tail < 1.0
    ensures Prob(t, n, UpperUndershoots(t, cell, n, tail)) <= tail + Slack(n)
  {
    hide Prob, Between, UpperTail, Cdf, LowerEnd, UpperEnd, Half;
    var p := t.Of(cell);
    var under := i => Undershoots(i, n, tail, p);
    var k := GreatestWhere(under, n);
    SlackCovers(n, 0.0);
    forall s: seq<Pair> | |s| == n && UpperUndershoots(t, cell, n, tail)(s)
      ensures k >= 0 && CountBetween(cell, 0, k)(s)
    {
      assert under(Count(s, cell));
    }
    hide Slack;
    if k < 0 {
      NeverHasNoChance(t, n, UpperUndershoots(t, cell, n, tail));
    } else {
      ProbMonotone(t, n, UpperUndershoots(t, cell, n, tail), CountBetween(cell, 0, k));
      CellCountIsBinomial(t, n, cell, 0, k);
      CdfExact(k, n, p);
      TailAtUndershoot(k, n, tail, p);
    }
  }

  // ----- the reported interval

  ghost predicate HoldsBare(e: Result<Estimate, string>, delta: real) { e.Ok? && e.value.lower <= delta <= e.value.upper }

  ghost function CoversBare(t: Table, z: real, normalCdf: real -> real): Event {
    samples => HoldsBare(PairedRateDifference(samples, z, normalCdf), t.Delta())
  }

  ghost function CellFails(t: Table, cell: Pair, n: nat, tail: real): Event {
    Or(LowerOvershoots(t, cell, n, tail), UpperUndershoots(t, cell, n, tail))
  }

  lemma CellRarelyFails(t: Table, cell: Pair, n: nat, tail: real)
    requires t.Valid() && 0.0 < tail < 1.0
    ensures Prob(t, n, CellFails(t, cell, n, tail)) <= 2.0 * (tail + Slack(n))
  {
    hide Prob, LowerOvershoots, UpperUndershoots, Slack;
    UnionBound(t, n, CellFails(t, cell, n, tail), LowerOvershoots(t, cell, n, tail), UpperUndershoots(t, cell, n, tail));
    OvershootIsRare(t, cell, n, tail);
    UndershootIsRare(t, cell, n, tail);
  }

  lemma NoFailureThenCovered(t: Table, z: real, normalCdf: real -> real, samples: seq<Pair>)
    requires t.Valid() && samples != [] && 0.0 < NominalAlpha(z, normalCdf) < 1.0
    requires var n, tail := |samples|, NominalAlpha(z, normalCdf) / 4.0;
      !CellFails(t, REF_ONLY, n, tail)(samples) && !CellFails(t, CAND_ONLY, n, tail)(samples)
    ensures CoversBare(t, z, normalCdf)(samples)
  {
    hide LowerEnd, UpperEnd, NominalAlpha, Count, PairedRateDifference;
    EstimateExactly(samples, z, normalCdf);
  }

  // The interval as reported holds the true difference with probability at least 1 - alpha, less n * 2^-69.
  lemma BareIntervalCoverage(t: Table, n: nat, z: real, normalCdf: real -> real)
    requires t.Valid() && n > 0 && 0.0 < NominalAlpha(z, normalCdf) < 1.0
    ensures Prob(t, n, CoversBare(t, z, normalCdf)) >= 1.0 - NominalAlpha(z, normalCdf) - n as real * Half(STEPS - 1)
  {
    FourSlacks(n);
    hide Prob, CoversBare, CellFails, NominalAlpha, Slack, Half;
    var alpha := NominalAlpha(z, normalCdf);
    var tail := alpha / 4.0;
    var covers, first, second :=
      CoversBare(t, z, normalCdf), CellFails(t, REF_ONLY, n, tail), CellFails(t, CAND_ONLY, n, tail);
    forall s: seq<Pair> | |s| == n && Not(covers)(s)
      ensures first(s) || second(s)
    {
      if !first(s) && !second(s) {
        NoFailureThenCovered(t, z, normalCdf, s);
      }
    }
    UnionBound(t, n, Not(covers), first, second);
    CellRarelyFails(t, REF_ONLY, n, tail);
    CellRarelyFails(t, CAND_ONLY, n, tail);
    Complement(t, n, covers);
  }

  lemma FourSlacks(n: nat)
    ensures 4.0 * Slack(n) == n as real * Half(STEPS - 1)
  {
    assert Half(STEPS) == Half(STEPS - 1) / 2.0 && Half(STEPS + 1) == Half(STEPS) / 2.0;
  }

  // ----- some of it can be lost

  const NEITHER: Pair := (false, false)

  // One cell almost certain, the concordant one left with 2^-72.
  ghost function AlmostCertain(): Table { Table(0.0, 0.0, 1.0 - Half(72), Half(72)) }

  lemma SmallHalves()
    ensures Half(72) == Half(STEPS + 1) / 2.0 && 0.0 < Half(72) < 1.0
    ensures AlmostCertain().Valid() && AlmostCertain().Delta() == 1.0 - Half(72) && AlmostCertain().Of(NEITHER) == Half(72)
  {
    HalfAtMostOne(72);
  }

  lemma {:induction false} HalfAtMostOne(k: nat)
    ensures Half(k) <= 1.0 && (k > 0 ==> Half(k) < 1.0)
  {
    if k > 0 {
      HalfAtMostOne(k - 1);
    }
  }

  // The concordant pair's interval ends half a bracket short of one, so it misses the difference.
  lemma ConcordantPairMisses(s: seq<Pair>, z: real, normalCdf: real -> real)
    requires s == [NEITHER] && 0.0 < NominalAlpha(z, normalCdf) < 1.0
    ensures !CoversBare(AlmostCertain(), z, normalCdf)(s)
  {
    SmallHalves();
    assert Count(s, REF_ONLY) == 0 && Count(s, CAND_ONLY) == 0;
    hide Half, NominalAlpha, PairedRateDifference, UpperBracket, Count, AlmostCertain, Cdf;
    EstimateExactly(s, z, normalCdf);
    UpperEndSolves(0, 1, NominalAlpha(z, normalCdf) / 4.0);
  }

  // At a level below 2^-72 a single pair already falls short of 1 - alpha.
  lemma BareIntervalCanFallShort(z: real, normalCdf: real -> real)
    requires 0.0 < NominalAlpha(z, normalCdf) < Half(72)
    ensures AlmostCertain().Valid()
    ensures Prob(AlmostCertain(), 1, CoversBare(AlmostCertain(), z, normalCdf)) < 1.0 - NominalAlpha(z, normalCdf)
  {
    SmallHalves();
    ConcordantChance();
    hide Prob, Half, NominalAlpha, CoversBare, AlmostCertain, CountBetween;
    var t := AlmostCertain();
    var concordant := CountBetween(NEITHER, 1, 1);
    forall s: seq<Pair> | |s| == 1 && CoversBare(t, z, normalCdf)(s)
      ensures Not(concordant)(s)
    {
      OnePair(s);
      if s == [NEITHER] {
        ConcordantPairMisses(s, z, normalCdf);
      }
    }
    ProbMonotone(t, 1, CoversBare(t, z, normalCdf), Not(concordant));
    Complement(t, 1, concordant);
  }

  lemma OnePair(s: seq<Pair>)
    requires |s| == 1
    ensures CountBetween(NEITHER, 1, 1)(s) <==> s == [NEITHER]
  {
    assert s[1..] == [];
    assert Count(s, NEITHER) == if s[0] == NEITHER then 1 else 0;
  }

  lemma ConcordantChance()
    ensures Prob(AlmostCertain(), 1, CountBetween(NEITHER, 1, 1)) == Half(72)
  {
    SmallHalves();
    hide Prob, Half, AlmostCertain, CountBetween, Term;
    CellCountMass(AlmostCertain(), 1, NEITHER, 1);
    TermAtEnds(1, Half(72));
    assert Pow(Half(72), 1) == Half(72) * Pow(Half(72), 0) == Half(72);
  }

  // ----- the verdict at the declared margin itself

  lemma BareConclusionNeedsMiss(t: Table, n: nat, tol: Tolerances, normalCdf: real -> real, status: VerdictStatus)
    requires t.Valid() && status in {Match, Mismatch}
    requires forall s :: |s| == n && Concludes(status, tol, normalCdf)(s)
                     ==> !CoversBare(t, tol.stochasticZ, normalCdf)(s)
    ensures Prob(t, n, Concludes(status, tol, normalCdf)) <= Budget(tol, normalCdf) + n as real * Half(STEPS - 1)
  {
    FourSlacks(n);
    SlackCovers(n, 0.0);
    hide Prob, CoversBare, NominalAlpha, PairedRateDifference, Slack, Half;
    var covers := CoversBare(t, tol.stochasticZ, normalCdf);
    var alpha := NominalAlpha(tol.stochasticZ, normalCdf);
    if n > 0 && 0.0 < alpha < 1.0 {
      ProbMonotone(t, n, Concludes(status, tol, normalCdf), Not(covers));
      BareIntervalCoverage(t, n, tol.stochasticZ, normalCdf);
      Complement(t, n, covers);
    } else {
      forall s: seq<Pair> | |s| == n
        ensures !Concludes(status, tol, normalCdf)(s)
      {
        NothingConcluded(s, tol, normalCdf);
      }
      NeverHasNoChance(t, n, Concludes(status, tol, normalCdf));
    }
  }

  // Systems beyond the margin, by however little, are declared equivalent with chance at most alpha + n * 2^-69.
  lemma BareFalseMatchControl(t: Table, n: nat, tol: Tolerances, normalCdf: real -> real)
    requires t.Valid()
    requires tol.equivalenceMargin.Some? ==> Abs(t.Delta()) > tol.equivalenceMargin.value
    ensures Prob(t, n, Concludes(Match, tol, normalCdf)) <= Budget(tol, normalCdf) + n as real * Half(STEPS - 1)
  {
    hide Prob, PairedRateDifference, Half;
    BareConclusionNeedsMiss(t, n, tol, normalCdf, Match);
  }

  // Systems within the margin are declared different with chance at most alpha + n * 2^-69.
  lemma BareFalseMismatchControl(t: Table, n: nat, tol: Tolerances, normalCdf: real -> real)
    requires t.Valid()
    requires tol.equivalenceMargin.Some? ==> Abs(t.Delta()) <= tol.equivalenceMargin.value
    ensures Prob(t, n, Concludes(Mismatch, tol, normalCdf)) <= Budget(tol, normalCdf) + n as real * Half(STEPS - 1)
  {
    hide Prob, PairedRateDifference, Half;
    BareConclusionNeedsMiss(t, n, tol, normalCdf, Mismatch);
  }
}
