/** Clopper-Pearson bounds, the Bonferroni interval for a paired rate difference, and the equivalence verdict. */
module PairedEquivalence {
  import opened Wrappers
  import opened Binomial
  import opened Bisection

  // ----- Clopper-Pearson

  datatype Interval = Interval(lower: real, upper: real)

  function UpperTailOf(k: int, n: nat): real -> real { p => UpperTail(k, n, p) }

  function CdfOf(k: int, n: nat): real -> real { p => Cdf(k, n, p) }

  function LowerBracket(k: int, n: nat, tail: real): Bracket {
    Search(tail, UpperTailOf(k, n), true)
  }

  function UpperBracket(k: int, n: nat, tail: real): Bracket {
    Search(tail, CdfOf(k, n), false)
  }

  function LowerEnd(k: int, n: nat, tail: real): real {
    if k == 0 then 0.0 else LowerBracket(k, n, tail).Midpoint()
  }

  function UpperEnd(k: int, n: nat, tail: real): real {
    if k == n then 1.0 else UpperBracket(k, n, tail).Midpoint()
  }

  function ClopperPearson(successes: int, n: int, alpha: real): Result<Interval, string> {
    if n <= 0 then Err("n must be positive")
    else if !(0 <= successes <= n) then Err("successes must be between 0 and n")
    else if !(0.0 < alpha < 1.0) then Err("alpha must be in (0, 1)")
    else Ok(Interval(LowerEnd(successes, n, alpha / 2.0), UpperEnd(successes, n, alpha / 2.0)))
  }

  // The lower end straddles P[X >= k] = tail within 2^-71.
  lemma LowerEndSolves(k: int, n: nat, tail: real)
    requires 0 < k <= n && 0.0 < tail <= 1.0
    ensures var b := LowerBracket(k, n, tail);
      && LowerEnd(k, n, tail) - Half(STEPS + 1) == b.lower >= 0.0
      && LowerEnd(k, n, tail) + Half(STEPS + 1) == b.upper <= 1.0
      && UpperTail(k, n, b.lower) < tail <= UpperTail(k, n, b.upper)
  {
    TailsAtEnds(k, n);
    hide UpperTail, Cdf, Search, Half;
    SearchSound(tail, UpperTailOf(k, n), true);
  }

  // The upper end straddles P[X <= k] = tail within 2^-71.
  lemma UpperEndSolves(k: int, n: nat, tail: real)
    requires 0 <= k < n && 0.0 < tail < 1.0
    ensures var b := UpperBracket(k, n, tail);
      && UpperEnd(k, n, tail) - Half(STEPS + 1) == b.lower >= 0.0
      && UpperEnd(k, n, tail) + Half(STEPS + 1) == b.upper <= 1.0
      && Cdf(k, n, b.lower) > tail >= Cdf(k, n, b.upper)
  {
    TailsAtEnds(k, n);
    hide UpperTail, Cdf, Search, Half;
    SearchSound(tail, CdfOf(k, n), false);
  }

  lemma TailsAtEnds(k: int, n: nat)
    requires 0 <= k <= n
    ensures UpperTail(k, n, 1.0) == 1.0 && (k > 0 ==> UpperTail(k, n, 0.0) == 0.0)
    ensures Cdf(k, n, 0.0) == 1.0 && (k < n ==> Cdf(k, n, 1.0) == 0.0)
  {
    UpperTailExact(k, n, 0.0);
    UpperTailExact(k, n, 1.0);
    CdfExact(k, n, 0.0);
    CdfExact(k, n, 1.0);
    BetweenAtEnds(n, k, n);
    BetweenAtEnds(n, 0, k);
  }

  // Where the search for the lower end still climbs, so does the search for the upper end.
  lemma LowerClimbsThenUpperClimbs(k: int, n: nat, tail: real, p: real)
    requires 0.0 < p < 1.0 && tail < 0.5
    ensures UpImpliesUp(UpperTailOf(k, n), tail, true, CdfOf(k, n), tail, false, p)
  {
    TailsOrderedInCount(k, n, p);
    hide UpperTail, Cdf;
  }

  lemma MoreSuccessesClimbFurther(k: int, n: nat, tail: real, p: real)
    requires 0.0 < p < 1.0
    ensures UpImpliesUp(UpperTailOf(k, n), tail, true, UpperTailOf(k + 1, n), tail, true, p)
    ensures UpImpliesUp(CdfOf(k, n), tail, false, CdfOf(k + 1, n), tail, false, p)
  {
    TailsOrderedInCount(k, n, p);
    hide UpperTail, Cdf;
  }

  // The interval is never inverted and stays in [0, 1]; no success, or no failure, closes it at that end.
  lemma NotInverted(k: int, n: nat, tail: real)
    requires 0 <= k <= n && n > 0 && 0.0 < tail < 0.5
    ensures 0.0 <= LowerEnd(k, n, tail) <= UpperEnd(k, n, tail) <= 1.0
    ensures (k == 0 ==> LowerEnd(k, n, tail) == 0.0) && (k == n ==> UpperEnd(k, n, tail) == 1.0)
  {
    hide UpperTail, Cdf, Bisect, Half, UpImpliesUp, UpperTailOf, CdfOf;
    SearchSound(tail, UpperTailOf(k, n), true);
    SearchSound(tail, CdfOf(k, n), false);
    if 0 < k < n {
      forall p: real | 0.0 < p < 1.0
        ensures UpImpliesUp(UpperTailOf(k, n), tail, true, CdfOf(k, n), tail, false, p)
      {
        LowerClimbsThenUpperClimbs(k, n, tail, p);
      }
      UnitIsWhole();
      BisectOrdered(UpperTailOf(k, n), tail, true, CdfOf(k, n), tail, false, UNIT, 0, STEPS);
    }
  }

  lemma UnitIsWhole()
    ensures UNIT.upper - UNIT.lower == Half(0)
  {
  }

  // One more success never lowers either end.
  lemma EndsMonotoneInSuccesses(k: int, n: nat, tail: real)
    requires 0 <= k < n && 0.0 < tail < 0.5
    ensures LowerEnd(k, n, tail) <= LowerEnd(k + 1, n, tail)
    ensures UpperEnd(k, n, tail) <= UpperEnd(k + 1, n, tail)
  {
    hide UpperTail, Cdf, Bisect, Half, UpImpliesUp, UpperTailOf, CdfOf;
    NotInverted(k, n, tail);
    NotInverted(k + 1, n, tail);
    var tails, tails' := UpperTailOf(k, n), UpperTailOf(k + 1, n);
    var cdfs, cdfs' := CdfOf(k, n), CdfOf(k + 1, n);
    forall p: real | 0.0 < p < 1.0
      ensures UpImpliesUp(tails, tail, true, tails', tail, true, p)
    {
      MoreSuccessesClimbFurther(k, n, tail, p);
    }
    forall p: real | 0.0 < p < 1.0
      ensures UpImpliesUp(cdfs, tail, false, cdfs', tail, false, p)
    {
      MoreSuccessesClimbFurther(k, n, tail, p);
    }
    UnitIsWhole();
    BisectOrdered(tails, tail, true, tails', tail, true, UNIT, 0, STEPS);
    BisectOrdered(cdfs, tail, false, cdfs', tail, false, UNIT, 0, STEPS);
  }

  // ----- paired samples: (reference succeeded, candidate succeeded)

  type Pair = (bool, bool)

  const REF_ONLY: Pair := (true, false)
  const CAND_ONLY: Pair := (false, true)

  function Count(samples: seq<Pair>, cell: Pair): (c: nat)
    ensures c <= |samples|
  {
    if samples == [] then 0 else (if samples[0] == cell then 1 else 0) + Count(samples[1..], cell)
  }

  datatype Estimate = Estimate(difference: real, lower: real, upper: real, nominalAlpha: real)

  function NominalAlpha(z: real, normalCdf: real -> real): real {
    2.0 * (1.0 - normalCdf(z))
  }

  function PairedRateDifference(samples: seq<Pair>, z: real, normalCdf: real -> real): Result<Estimate, string> {
    var n := |samples|;
    var nominalAlpha := NominalAlpha(z, normalCdf);
    if n <= 0 then Err("paired samples must be non-empty")
    else if !(0.0 < nominalAlpha < 1.0) then Err("stochastic_z does not define a finite confidence level")
    else
      var refOnly := Count(samples, REF_ONLY);
      var candOnly := Count(samples, CAND_ONLY);
      var reference := ClopperPearson(refOnly, n, nominalAlpha / 2.0);
      var candidate := ClopperPearson(candOnly, n, nominalAlpha / 2.0);
      if reference.Err? then Err(reference.error)
      else if candidate.Err? then Err(candidate.error)
      else Ok(Estimate(
        (candOnly - refOnly) as real / n as real,
        Max(-1.0, candidate.value.lower - reference.value.upper),
        Min(1.0, candidate.value.upper - reference.value.lower),
        nominalAlpha))
  }

  // For a distribution symmetric about zero the level is the mass outside [-z, z].
  lemma LevelIsOuterMass(z: real, normalCdf: real -> real)
    requires normalCdf(-z) == 1.0 - normalCdf(z)
    ensures NominalAlpha(z, normalCdf) == normalCdf(-z) + (1.0 - normalCdf(z))
    ensures NominalAlpha(z, normalCdf) == 1.0 - (normalCdf(z) - normalCdf(-z))
  {
  }

  // So a positive critical value has a proper level wherever mass lies outside [-z, z] and within it.
  lemma ProperLevelExactly(z: real, normalCdf: real -> real)
    requires normalCdf(-z) == 1.0 - normalCdf(z)
    ensures 0.0 < NominalAlpha(z, normalCdf) < 1.0 <==> 0.0 < normalCdf(-z) < normalCdf(z)
  {
  }

  // ----- the verdict

  datatype Tolerances = Tolerances(stochasticMinSamples: int, stochasticZ: real, equivalenceMargin: Option<real>)

  datatype VerdictStatus = Match | Mismatch | Indeterminate | NotApplicable

  datatype Detail =
    | MissingMargin | InvalidMargin | InvalidMinimum | InvalidCriticalValue | InsufficientSamples
    | Contained | Beyond | Overlaps

  datatype Verdict = Verdict(status: VerdictStatus, detail: Detail)

  function StatisticalSuccess(samples: seq<Pair>, tol: Tolerances, normalCdf: real -> real): Verdict {
    var n := |samples|;
    if tol.equivalenceMargin.None? then Verdict(Indeterminate, MissingMargin)
    else if !(0.0 < tol.equivalenceMargin.value < 1.0) then Verdict(Indeterminate, InvalidMargin)
    else if tol.stochasticMinSamples <= 0 then Verdict(Indeterminate, InvalidMinimum)
    else if !(tol.stochasticZ > 0.0) then Verdict(Indeterminate, InvalidCriticalValue)
    else if n < tol.stochasticMinSamples then Verdict(Indeterminate, InsufficientSamples)
    else
      var estimate := PairedRateDifference(samples, tol.stochasticZ, normalCdf);
      if estimate.Err? then Verdict(Indeterminate, InvalidCriticalValue)
      else
        var margin := tol.equivalenceMargin.value;
        var lower, upper := estimate.value.lower, estimate.value.upper;
        if lower >= -margin && upper <= margin then
          Verdict(Match, Contained)
        else if lower > margin || upper < -margin then
          Verdict(Mismatch, Beyond)
        else
          Verdict(Indeterminate, Overlaps)
  }

  // ----- exchanging the two systems

  function Exchanged(samples: seq<Pair>): seq<Pair> {
    seq(|samples|, i requires 0 <= i < |samples| => (samples[i].1, samples[i].0))
  }

  lemma {:induction false} CountExchanged(samples: seq<Pair>, cell: Pair)
    ensures Count(Exchanged(samples), (cell.1, cell.0)) == Count(samples, cell)
  {
    if samples != [] {
      assert Exchanged(samples)[1..] == Exchanged(samples[1..]);
      CountExchanged(samples[1..], cell);
    }
  }

  // The interval mirrors and the status stays: neither system is privileged.
  lemma ExchangeMirrors(samples: seq<Pair>, tol: Tolerances, normalCdf: real -> real)
    ensures var e := PairedRateDifference(samples, tol.stochasticZ, normalCdf);
      var e' := PairedRateDifference(Exchanged(samples), tol.stochasticZ, normalCdf);
      && e.Ok? == e'.Ok?
      && (e.Ok? ==> e'.value == Estimate(-e.value.difference, -e.value.upper, -e.value.lower, e.value.nominalAlpha))
    ensures StatisticalSuccess(samples, tol, normalCdf) == StatisticalSuccess(Exchanged(samples), tol, normalCdf)
  {
    hide ClopperPearson, Count;
    CountExchanged(samples, REF_ONLY);
    CountExchanged(samples, CAND_ONLY);
    if samples != [] {
      NegatedQuotient(Count(samples, CAND_ONLY), Count(samples, REF_ONLY), |samples|);
    }
  }

  lemma NegatedQuotient(c: int, r: int, n: int)
    requires n > 0
    ensures (r - c) as real / n as real == -((c - r) as real / n as real)
  {
  }

  function Rate(samples: seq<Pair>, first: bool): nat {
    if samples == [] then 0
    else (if (if first then samples[0].0 else samples[0].1) then 1 else 0) + Rate(samples[1..], first)
  }

  // Only the discordant cells move the difference of the two success counts.
  lemma {:induction false} DiscordantCellsDecide(samples: seq<Pair>)
    ensures Rate(samples, false) - Rate(samples, true) == Count(samples, CAND_ONLY) - Count(samples, REF_ONLY)
  {
    if samples != [] {
      DiscordantCellsDecide(samples[1..]);
    }
  }

  lemma MarginalInterval(k: nat, n: nat, alpha: real)
    requires k <= n && n > 0 && 0.0 < alpha < 1.0
    ensures ClopperPearson(k, n, alpha / 2.0) == Ok(Interval(LowerEnd(k, n, alpha / 4.0), UpperEnd(k, n, alpha / 4.0)))
    ensures 0.0 <= LowerEnd(k, n, alpha / 4.0) <= UpperEnd(k, n, alpha / 4.0) <= 1.0
  {
    hide LowerEnd, UpperEnd;
    assert alpha / 2.0 / 2.0 == alpha / 4.0;
    NotInverted(k, n, alpha / 4.0);
  }

  // The estimate exists for every nonempty sample and proper level, is the difference of the two success rates, and
  // its interval is the difference of the marginal ones: the clamps to [-1, 1] never bite.
  lemma EstimateExactly(samples: seq<Pair>, z: real, normalCdf: real -> real)
    requires samples != [] && 0.0 < NominalAlpha(z, normalCdf) < 1.0
    ensures var e := PairedRateDifference(samples, z, normalCdf);
      var n, tail := |samples|, NominalAlpha(z, normalCdf) / 4.0;
      var r, c := Count(samples, REF_ONLY), Count(samples, CAND_ONLY);
      && e.Ok? && e.value.difference == (Rate(samples, false) - Rate(samples, true)) as real / n as real
      && e.value.lower == LowerEnd(c, n, tail) - UpperEnd(r, n, tail)
      && e.value.upper == UpperEnd(c, n, tail) - LowerEnd(r, n, tail)
      && -1.0 <= e.value.lower <= e.value.upper <= 1.0
      && e.value.nominalAlpha == NominalAlpha(z, normalCdf)
  {
    hide ClopperPearson, LowerEnd, UpperEnd, Count, Rate, NominalAlpha;
    DiscordantCellsDecide(samples);
    MarginalInterval(Count(samples, REF_ONLY), |samples|, NominalAlpha(z, normalCdf));
    MarginalInterval(Count(samples, CAND_ONLY), |samples|, NominalAlpha(z, normalCdf));
  }

  lemma NoEstimate(samples: seq<Pair>, z: real, normalCdf: real -> real)
    requires samples == [] || !(0.0 < NominalAlpha(z, normalCdf) < 1.0)
    ensures PairedRateDifference(samples, z, normalCdf).Err?
  {
    hide ClopperPearson, NominalAlpha, Count;
  }

  // A declared margin inside (0, 1), a positive minimum that the sample meets, and a critical value with a level.
  predicate Settled(samples: seq<Pair>, tol: Tolerances, normalCdf: real -> real) {
    && tol.equivalenceMargin.Some? && 0.0 < tol.equivalenceMargin.value < 1.0
    && 0 < tol.stochasticMinSamples <= |samples|
    && tol.stochasticZ > 0.0 && 0.0 < NominalAlpha(tol.stochasticZ, normalCdf) < 1.0
  }

  ghost predicate Within(d: real, margin: real) { -margin <= d <= margin }

  ghost predicate Reported(e: Estimate, d: real) { e.lower <= d <= e.upper }

  ghost predicate AllWithin(e: Estimate, margin: real) { forall d :: Reported(e, d) ==> Within(d, margin) }

  ghost predicate NoneWithin(e: Estimate, margin: real) { forall d :: Reported(e, d) ==> !Within(d, margin) }

  lemma IntervalMeaning(e: Estimate, margin: real)
    requires e.lower <= e.upper && margin > 0.0
    ensures e.lower >= -margin && e.upper <= margin <==> AllWithin(e, margin)
    ensures e.lower > margin || e.upper < -margin <==> NoneWithin(e, margin)
  {
    assert Reported(e, e.lower) && Reported(e, e.upper);
    assert Reported(e, -margin) || e.lower > -margin || e.upper < -margin;
  }

  lemma VerdictByEnds(samples: seq<Pair>, tol: Tolerances, normalCdf: real -> real)
    requires Settled(samples, tol, normalCdf) && PairedRateDifference(samples, tol.stochasticZ, normalCdf).Ok?
    ensures var status, margin := StatisticalSuccess(samples, tol, normalCdf).status, tol.equivalenceMargin.value;
      var e := PairedRateDifference(samples, tol.stochasticZ, normalCdf).value;
      status == if e.lower >= -margin && e.upper <= margin then Match
                else if e.lower > margin || e.upper < -margin then Mismatch else Indeterminate
  {
    hide PairedRateDifference, NominalAlpha;
  }

  // A match says that every difference in the interval is within the margin, a mismatch that none is;
  // anything else is indeterminate.
  lemma VerdictMeaning(samples: seq<Pair>, tol: Tolerances, normalCdf: real -> real)
    requires Settled(samples, tol, normalCdf)
    ensures PairedRateDifference(samples, tol.stochasticZ, normalCdf).Ok?
    ensures var status, margin := StatisticalSuccess(samples, tol, normalCdf).status, tol.equivalenceMargin.value;
      var e := PairedRateDifference(samples, tol.stochasticZ, normalCdf).value;
      && (status == Match <==> AllWithin(e, margin))
      && (status == Mismatch <==> NoneWithin(e, margin))
      && status in {Match, Mismatch, Indeterminate}
  {
    EstimateExactly(samples, tol.stochasticZ, normalCdf);
    hide *;
    IntervalMeaning(PairedRateDifference(samples, tol.stochasticZ, normalCdf).value, tol.equivalenceMargin.value);
    VerdictByEnds(samples, tol, normalCdf);
  }

  // Without them there is no conclusion.
  lemma UnsettledIsIndeterminate(samples: seq<Pair>, tol: Tolerances, normalCdf: real -> real)
    requires !Settled(samples, tol, normalCdf)
    ensures StatisticalSuccess(samples, tol, normalCdf).status == Indeterminate
  {
    hide PairedRateDifference, NominalAlpha;
    if samples == [] || !(0.0 < NominalAlpha(tol.stochasticZ, normalCdf) < 1.0) {
      NoEstimate(samples, tol.stochasticZ, normalCdf);
    }
  }

  // ----- the reported reason

  predicate IsMargin(m: real) { 0.0 < m < 1.0 }

  // What the caller is told names the first thing amiss, and each reason is given in exactly its own case.
  lemma ReasonExactly(samples: seq<Pair>, tol: Tolerances, normalCdf: real -> real)
    ensures var v, m := StatisticalSuccess(samples, tol, normalCdf), tol.equivalenceMargin;
      var valid := m.Some? && IsMargin(m.value) && tol.stochasticMinSamples > 0;
      && (v.detail == MissingMargin <==> m.None?)
      && (v.detail == InvalidMargin <==> m.Some? && !IsMargin(m.value))
      && (v.detail == InvalidMinimum <==> m.Some? && IsMargin(m.value) && tol.stochasticMinSamples <= 0)
      && (v.detail == InsufficientSamples <==> valid && tol.stochasticZ > 0.0 && |samples| < tol.stochasticMinSamples)
      && (v.detail == Contained <==> v.status == Match) && (v.detail == Beyond <==> v.status == Mismatch)
      && (v.detail == InvalidCriticalValue
          <==> valid && (tol.stochasticZ <= 0.0
                         || (|samples| >= tol.stochasticMinSamples && !(0.0 < NominalAlpha(tol.stochasticZ, normalCdf) < 1.0))))
  {
    hide PairedRateDifference, NominalAlpha;
    if |samples| >= tol.stochasticMinSamples > 0 {
      if 0.0 < NominalAlpha(tol.stochasticZ, normalCdf) < 1.0 {
        EstimateExactly(samples, tol.stochasticZ, normalCdf);
      } else {
        NoEstimate(samples, tol.stochasticZ, normalCdf);
      }
    }
  }
}
