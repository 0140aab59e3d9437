/** Exact binomial probabilities: the tail functions of the differential comparator and the law they compute. */
module Binomial {

  function Pow(x: real, k: nat): real {
    if k == 0 then 1.0 else x * Pow(x, k - 1)
  }

  function Factorial(n: nat): (f: real)
    ensures f >= 1.0
  {
    if n == 0 then 1.0 else n as real * Factorial(n - 1)
  }

  function Coefficient(n: nat, k: nat): real
    requires k <= n
  {
    Factorial(n) / (Factorial(k) * Factorial(n - k))
  }

  // One addend of the comparator's sum. The source computes it as exp of
  // lgamma(n+1) - lgamma(k+1) - lgamma(n-k+1) + k*log(p) + (n-k)*log(1-p).
  function Term(k: nat, n: nat, p: real): real
    requires k <= n
  {
    Coefficient(n, k) * Pow(p, k) * Pow(1.0 - p, n - k)
  }

  function TermSum(start: nat, stop: int, n: nat, p: real): real
    requires stop <= n
    decreases stop - start + 1
  {
    if start > stop then 0.0 else TermSum(start, stop - 1, n, p) + Term(stop, n, p)
  }

  function Min(x: real, y: real): real { if x <= y then x else y }

  function Max(x: real, y: real): real { if x >= y then x else y }

  // lgamma has poles at the non-positive integers, so in the interior of [0, 1] the range must lie in 0..n.
  function ProbabilitySum(start: int, stop: int, n: nat, p: real): real
    requires start > stop || p <= 0.0 || p >= 1.0 || (0 <= start && stop <= n)
  {
    if start > stop then 0.0
    else if p <= 0.0 then if start <= 0 <= stop then 1.0 else 0.0
    else if p >= 1.0 then if start <= n <= stop then 1.0 else 0.0
    else Min(1.0, TermSum(start, stop, n, p))
  }

  function Cdf(k: int, n: nat, p: real): real {
    if k < 0 then 0.0
    else if k >= n then 1.0
    else if k as real < n as real * p then ProbabilitySum(0, k, n, p)
    else Max(0.0, 1.0 - ProbabilitySum(k + 1, n, n, p))
  }

  function UpperTail(k: int, n: nat, p: real): real {
    if k <= 0 then 1.0
    else if k > n then 0.0
    else if k as real > n as real * p then ProbabilitySum(k, n, n, p)
    else Max(0.0, 1.0 - ProbabilitySum(0, k - 1, n, p))
  }

  // ----- the law itself: k successes in n independent trials, by cases on one trial

  // Law(n, p)(k) is the probability of k successes in n trials.
  ghost function Law(n: nat, p: real): int -> real {
    if n == 0 then (k => if k == 0 then 1.0 else 0.0) else OneMore(Law(n - 1, p), p)
  }

  ghost function OneMore(f: int -> real, p: real): int -> real {
    k => p * f(k - 1) + (1.0 - p) * f(k)
  }

  ghost function Mass(n: nat, k: int, p: real): real {
    Law(n, p)(k)
  }

  ghost function Sum(f: int -> real, a: int, b: int): real
    decreases b - a + 1
  {
    if a > b then 0.0 else Sum(f, a, b - 1) + f(b)
  }

  // Probability of a count between a and b.
  ghost function Between(n: nat, a: int, b: int, p: real): real {
    Sum(Law(n, p), a, b)
  }

  lemma {:induction false} MassOutside(n: nat, k: int, p: real)
    requires k < 0 || k > n
    ensures Mass(n, k, p) == 0.0
  {
    if n > 0 {
      MassOutside(n - 1, k - 1, p);
      MassOutside(n - 1, k, p);
    }
  }

  lemma {:induction false} MassNonnegative(n: nat, k: int, p: real)
    requires 0.0 <= p <= 1.0
    ensures Mass(n, k, p) >= 0.0
  {
    hide *;
    if n == 0 {
      MassWithoutTrials(k, p);
    } else {
      MassNonnegative(n - 1, k - 1, p);
      MassNonnegative(n - 1, k, p);
      MassStep(n, k, p);
      BlendNonnegative(p, Mass(n - 1, k - 1, p), Mass(n - 1, k, p));
    }
  }

  lemma BlendNonnegative(p: real, x: real, y: real)
    requires 0.0 <= p <= 1.0 && x >= 0.0 && y >= 0.0
    ensures p * x + (1.0 - p) * y >= 0.0
  {
    assert p * x >= 0.0 && (1.0 - p) * y >= 0.0;
  }

  ghost function Choose(n: nat, k: nat): real
    requires k <= n
  {
    if k == 0 || k == n then 1.0 else Choose(n - 1, k - 1) + Choose(n - 1, k)
  }

  lemma FactorialStep(n: nat)
    requires n > 0
    ensures Factorial(n) == n as real * Factorial(n - 1)
  {
  }

  lemma {:induction false} ChooseFactorial(n: nat, k: nat)
    requires k <= n
    ensures Choose(n, k) * (Factorial(k) * Factorial(n - k)) == Factorial(n)
  {
    hide *;
    if k == 0 || k == n {
      ChooseAtEnds(n, k);
    } else {
      ChooseFactorial(n - 1, k - 1);
      ChooseFactorial(n - 1, k);
      ChooseInside(n, k);
      FactorialStep(n);
      FactorialStep(k);
      FactorialStep(n - k);
      assert n - 1 - (k - 1) == n - k;
      Regroup(Choose(n - 1, k - 1), Choose(n - 1, k), k as real, (n - k) as real, Factorial(k - 1),
        Factorial(n - 1 - k), Factorial(k), Factorial(n - k), Factorial(n - 1));
    }
  }

  lemma ChooseAtEnds(n: nat, k: nat)
    requires k <= n && (k == 0 || k == n)
    ensures Choose(n, k) * (Factorial(k) * Factorial(n - k)) == Factorial(n)
  {
  }

  lemma ChooseInside(n: nat, k: nat)
    requires 0 < k < n
    ensures Choose(n, k) == Choose(n - 1, k - 1) + Choose(n - 1, k)
  {
  }

  lemma Regroup(c1: real, c2: real, x: real, y: real, a: real, b: real, xa: real, yb: real, c: real)
    requires xa == x * a && yb == y * b && c1 * (a * yb) == c && c2 * (xa * b) == c
    ensures (c1 + c2) * (xa * yb) == (x + y) * c
  {
    assert c1 * (xa * yb) == x * (c1 * (a * yb));
    assert c2 * (xa * yb) == y * (c2 * (xa * b));
  }

  lemma CoefficientClears(n: nat, k: nat)
    requires k <= n
    ensures Factorial(k) * Factorial(n - k) > 0.0
    ensures Coefficient(n, k) * (Factorial(k) * Factorial(n - k)) == Factorial(n)
  {
    hide Factorial;
  }

  // n!/(k!(n-k)!) obeys Pascal's rule.
  lemma CoefficientIsChoose(n: nat, k: nat)
    requires k <= n
    ensures Coefficient(n, k) == Choose(n, k)
  {
    hide *;
    ChooseFactorial(n, k);
    CoefficientClears(n, k);
    CancelRight(Coefficient(n, k), Choose(n, k), Factorial(k) * Factorial(n - k), Factorial(n));
  }

  lemma CancelRight(c: real, q: real, d: real, f: real)
    requires d > 0.0 && c * d == f && q * d == f
    ensures c == q
  {
    assert (c - q) * d == 0.0;
  }

  lemma TermStep(k: nat, n: nat, p: real)
    requires 0 < k < n
    ensures Term(k, n, p) == p * Term(k - 1, n - 1, p) + (1.0 - p) * Term(k, n - 1, p)
  {
    CoefficientIsChoose(n, k);
    CoefficientIsChoose(n - 1, k - 1);
    CoefficientIsChoose(n - 1, k);
    Distribute(Coefficient(n, k), Coefficient(n - 1, k - 1), Coefficient(n - 1, k), p,
      Pow(p, k - 1), Pow(1.0 - p, n - k - 1), Pow(p, k), Pow(1.0 - p, n - k));
  }

  lemma TermAtEnds(n: nat, p: real)
    ensures Term(0, n, p) == Pow(1.0 - p, n) && Term(n, n, p) == Pow(p, n)
  {
    Ratio(Factorial(n));
  }

  lemma MassWithoutTrials(k: int, p: real)
    ensures Mass(0, k, p) == if k == 0 then 1.0 else 0.0
  {
  }

  lemma MassStep(n: nat, k: int, p: real)
    requires n > 0
    ensures Mass(n, k, p) == p * Mass(n - 1, k - 1, p) + (1.0 - p) * Mass(n - 1, k, p)
  {
  }

  lemma {:induction false} MassAtEnds(n: nat, p: real)
    ensures Mass(n, 0, p) == Pow(1.0 - p, n) && Mass(n, n, p) == Pow(p, n)
  {
    MassWithoutTrials(0, p);
    hide Law, Mass;
    if n > 0 {
      MassAtEnds(n - 1, p);
      MassOutside(n - 1, -1, p);
      MassOutside(n - 1, n, p);
      MassStep(n, 0, p);
      MassStep(n, n, p);
    }
  }

  // The closed form the source evaluates is the law of the number of successes.
  lemma {:induction false} TermIsMass(k: nat, n: nat, p: real)
    requires k <= n
    ensures Term(k, n, p) == Mass(n, k, p)
  {
    hide *;
    if k == 0 || k == n {
      TermAtEnds(n, p);
      MassAtEnds(n, p);
    } else {
      TermIsMass(k - 1, n - 1, p);
      TermIsMass(k, n - 1, p);
      TermStep(k, n, p);
      MassStep(n, k, p);
    }
  }

  lemma Ratio(f: real)
    requires f > 0.0
    ensures f / (1.0 * f) == 1.0 && f / (f * 1.0) == 1.0
  {
  }

  lemma Distribute(c: real, c1: real, c2: real, p: real, s: real, t: real, ps: real, qt: real)
    requires c == c1 + c2 && ps == p * s && qt == (1.0 - p) * t
    ensures c * ps * qt == p * (c1 * s * qt) + (1.0 - p) * (c2 * ps * t)
  {
    assert c1 * ps * qt == p * (c1 * s * qt);
    assert c2 * ps * qt == (1.0 - p) * (c2 * ps * t);
  }

  lemma {:induction false} TermSumIsBetween(start: nat, stop: int, n: nat, p: real)
    requires stop <= n
    ensures TermSum(start, stop, n, p) == Between(n, start, stop, p)
    decreases stop - start + 1
  {
    if start <= stop {
      TermSumIsBetween(start, stop - 1, n, p);
      TermIsMass(stop, n, p);
    }
  }

  // Condition on one trial.
  lemma BetweenStep(n: nat, a: int, b: int, p: real)
    requires n > 0
    ensures Between(n, a, b, p) == p * Between(n - 1, a - 1, b - 1, p) + (1.0 - p) * Between(n - 1, a, b, p)
  {
    hide Sum, OneMore;
    SumOneMore(Law(n - 1, p), p, a, b);
  }

  lemma {:induction false} SumOneMore(f: int -> real, p: real, a: int, b: int)
    ensures Sum(OneMore(f, p), a, b) == p * Sum(f, a - 1, b - 1) + (1.0 - p) * Sum(f, a, b)
    decreases b - a + 1
  {
    if a <= b {
      SumOneMore(f, p, a, b - 1);
      BlendSum(p, Sum(f, a - 1, b - 2), f(b - 1), Sum(f, a, b - 1), f(b));
    }
  }

  lemma BlendSum(p: real, x: real, dx: real, y: real, dy: real)
    ensures (p * x + (1.0 - p) * y) + (p * dx + (1.0 - p) * dy) == p * (x + dx) + (1.0 - p) * (y + dy)
  {
  }

  lemma BetweenPoint(n: nat, k: int, p: real)
    ensures Between(n, k, k, p) == Mass(n, k, p)
  {
    hide Law;
    assert Sum(Law(n, p), k, k - 1) == 0.0;
  }

  lemma {:induction false} BetweenNonnegative(n: nat, a: int, b: int, p: real)
    requires 0.0 <= p <= 1.0
    ensures Between(n, a, b, p) >= 0.0
    decreases b - a + 1
  {
    if a <= b {
      BetweenNonnegative(n, a, b - 1, p);
      MassNonnegative(n, b, p);
    }
  }

  lemma {:induction false} SumSplit(f: int -> real, a: int, m: int, b: int)
    requires a <= m + 1 && m <= b
    ensures Sum(f, a, b) == Sum(f, a, m) + Sum(f, m + 1, b)
    decreases b - m
  {
    if m < b {
      SumSplit(f, a, m, b - 1);
    }
  }

  lemma BetweenSplit(n: nat, a: int, m: int, b: int, p: real)
    requires a <= m + 1 && m <= b
    ensures Between(n, a, b, p) == Between(n, a, m, p) + Between(n, m + 1, b, p)
  {
    hide Law, Sum;
    SumSplit(Law(n, p), a, m, b);
  }

  // The masses of 0..n, or of any wider range, sum to one: the binomial theorem.
  lemma {:induction false} TotalIsOne(n: nat, a: int, b: int, p: real)
    requires a <= 0 && n <= b
    ensures Between(n, a, b, p) == 1.0
    decreases n
  {
    hide *;
    if n == 0 {
      NoTrials(a, b, p);
    } else {
      BetweenStep(n, a, b, p);
      TotalIsOne(n - 1, a - 1, b - 1, p);
      TotalIsOne(n - 1, a, b, p);
    }
  }

  lemma {:induction false} NoTrials(a: int, b: int, p: real)
    ensures Between(0, a, b, p) == if a <= 0 <= b then 1.0 else 0.0
    decreases b - a + 1
  {
    if a <= b {
      NoTrials(a, b - 1, p);
    }
  }

  lemma BetweenAtMostOne(n: nat, a: int, b: int, p: real)
    requires 0.0 <= p <= 1.0 && 0 <= a && b <= n
    ensures 0.0 <= Between(n, a, b, p) <= 1.0
  {
    BetweenNonnegative(n, a, b, p);
    if a <= b {
      BetweenSplit(n, 0, a - 1, n, p);
      BetweenSplit(n, a, b, n, p);
      BetweenNonnegative(n, 0, a - 1, p);
      BetweenNonnegative(n, b + 1, n, p);
      TotalIsOne(n, 0, n, p);
    }
  }

  lemma {:induction false} MassAtZero(n: nat, k: int)
    ensures Mass(n, k, 0.0) == if k == 0 then 1.0 else 0.0
  {
    MassWithoutTrials(k, 0.0);
    hide *;
    if n > 0 {
      MassAtZero(n - 1, k);
      MassStep(n, k, 0.0);
    }
  }

  lemma {:induction false} MassAtOne(n: nat, k: int)
    ensures Mass(n, k, 1.0) == if k == n then 1.0 else 0.0
  {
    MassWithoutTrials(k, 1.0);
    hide *;
    if n > 0 {
      MassAtOne(n - 1, k - 1);
      MassStep(n, k, 1.0);
    }
  }

  lemma {:induction false} BetweenAtEnds(n: nat, a: int, b: int)
    ensures Between(n, a, b, 0.0) == if a <= 0 <= b then 1.0 else 0.0
    ensures Between(n, a, b, 1.0) == if a <= n <= b then 1.0 else 0.0
    decreases b - a + 1
  {
    if a <= b {
      BetweenAtEnds(n, a, b - 1);
      MassAtZero(n, b);
      MassAtOne(n, b);
    }
  }

  // The branches at the ends of [0, 1] agree with the sum, and min(1, total) never changes it.
  lemma ProbabilitySumExact(start: int, stop: int, n: nat, p: real)
    requires 0.0 <= p <= 1.0 && 0 <= start && stop <= n
    ensures ProbabilitySum(start, stop, n, p) == Between(n, start, stop, p)
    ensures TermSum(start, stop, n, p) <= 1.0
  {
    BetweenAtMostOne(n, start, stop, p);
    TermSumIsBetween(start, stop, n, p);
    BetweenAtEnds(n, start, stop);
  }

  // Whichever tail is summed, the CDF is the direct sum, and max(0, .) never changes it.
  lemma CdfExact(k: int, n: nat, p: real)
    requires 0.0 <= p <= 1.0
    ensures Cdf(k, n, p) == Between(n, 0, k, p)
    ensures 0 <= k < n ==> 1.0 - ProbabilitySum(k + 1, n, n, p) >= 0.0
  {
    if k < 0 {
    } else if k >= n {
      TotalIsOne(n, 0, k, p);
    } else {
      ProbabilitySumExact(0, k, n, p);
      ProbabilitySumExact(k + 1, n, n, p);
      BetweenSplit(n, 0, k, n, p);
      TotalIsOne(n, 0, n, p);
      BetweenAtMostOne(n, k + 1, n, p);
    }
  }

  lemma UpperTailExact(k: int, n: nat, p: real)
    requires 0.0 <= p <= 1.0
    ensures UpperTail(k, n, p) == Between(n, k, n, p)
    ensures 0 < k <= n ==> 1.0 - ProbabilitySum(0, k - 1, n, p) >= 0.0
  {
    if k <= 0 {
      TotalIsOne(n, k, n, p);
    } else if k > n {
    } else {
      ProbabilitySumExact(0, k - 1, n, p);
      ProbabilitySumExact(k, n, n, p);
      BetweenSplit(n, 0, k - 1, n, p);
      TotalIsOne(n, 0, n, p);
      BetweenAtMostOne(n, 0, k - 1, p);
    }
  }

  lemma TailsComplement(k: int, n: nat, p: real)
    requires 0.0 <= p <= 1.0
    ensures Cdf(k, n, p) + UpperTail(k + 1, n, p) == 1.0
    ensures 0.0 <= Cdf(k, n, p) <= 1.0 && 0.0 <= UpperTail(k + 1, n, p) <= 1.0
  {
    CdfExact(k, n, p);
    UpperTailExact(k + 1, n, p);
    if 0 <= k < n {
      BetweenSplit(n, 0, k, n, p);
      TotalIsOne(n, 0, n, p);
      BetweenAtMostOne(n, 0, k, p);
    }
  }

  // ----- monotonicity in p

  lemma {:induction false} BelowMonotone(n: nat, k: int, p: real, q: real)
    requires 0.0 <= p <= q <= 1.0
    ensures Between(n, 0, k, p) >= Between(n, 0, k, q)
    decreases n
  {
    hide *;
    if n == 0 {
      NoTrials(0, k, p);
      NoTrials(0, k, q);
    } else {
      BelowStep(n, k, p);
      BelowStep(n, k, q);
      BelowMonotone(n - 1, k - 1, p, q);
      BelowMonotone(n - 1, k, p, q);
      BelowGrows(n - 1, k, q);
      Mix(p, q, Between(n - 1, 0, k - 1, p), Between(n - 1, 0, k, p),
          Between(n - 1, 0, k - 1, q), Between(n - 1, 0, k, q));
    }
  }

  lemma BelowGrows(n: nat, k: int, p: real)
    requires 0.0 <= p <= 1.0
    ensures Between(n, 0, k - 1, p) <= Between(n, 0, k, p)
  {
    MassNonnegative(n, k, p);
  }

  lemma BelowStep(n: nat, k: int, p: real)
    requires n > 0
    ensures Between(n, 0, k, p) == p * Between(n - 1, 0, k - 1, p) + (1.0 - p) * Between(n - 1, 0, k, p)
  {
    hide *;
    BetweenStep(n, 0, k, p);
    FromZero(n - 1, k - 1, p);
  }

  lemma {:induction false} FromZero(n: nat, k: int, p: real)
    ensures Between(n, -1, k, p) == Between(n, 0, k, p)
    decreases k + 1
  {
    if k >= -1 {
      FromZero(n, k - 1, p);
      MassOutside(n, -1, p);
    }
  }

  lemma Mix(p: real, q: real, a: real, b: real, u: real, v: real)
    requires 0.0 <= p <= q <= 1.0 && a >= u && b >= v && u <= v
    ensures p * a + (1.0 - p) * b >= q * u + (1.0 - q) * v
  {
    assert p * (a - u) >= 0.0 && (1.0 - p) * (b - v) >= 0.0 && (q - p) * (v - u) >= 0.0;
  }

  lemma CdfNonincreasing(k: int, n: nat, p: real, q: real)
    requires 0.0 <= p <= q <= 1.0
    ensures Cdf(k, n, p) >= Cdf(k, n, q)
  {
    CdfExact(k, n, p);
    CdfExact(k, n, q);
    BelowMonotone(n, k, p, q);
  }

  lemma UpperTailNondecreasing(k: int, n: nat, p: real, q: real)
    requires 0.0 <= p <= q <= 1.0
    ensures UpperTail(k, n, p) <= UpperTail(k, n, q)
  {
    TailsComplement(k - 1, n, p);
    TailsComplement(k - 1, n, q);
    CdfNonincreasing(k - 1, n, p, q);
  }

  // ----- how fast the tails move with p

  lemma MixSlope(p: real, q: real, a: real, b: real, u: real, v: real, m: real)
    requires 0.0 <= p <= q <= 1.0 && a - u <= m * (q - p) && b - v <= m * (q - p) && v - u <= 1.0
    ensures (p * a + (1.0 - p) * b) - (q * u + (1.0 - q) * v) <= (m + 1.0) * (q - p)
  {
    var d := m * (q - p);
    assert p * (d - (a - u)) >= 0.0 && (1.0 - p) * (d - (b - v)) >= 0.0;
    assert (q - p) * (1.0 - (v - u)) >= 0.0;
  }

  // n trials move the probability of few successes by at most n times the move of p.
  lemma {:induction false} BelowSlope(n: nat, k: int, p: real, q: real)
    requires 0.0 <= p <= q <= 1.0
    ensures Between(n, 0, k, p) - Between(n, 0, k, q) <= n as real * (q - p)
    decreases n
  {
    hide *;
    if n == 0 {
      NoTrials(0, k, p);
      NoTrials(0, k, q);
    } else {
      BelowStep(n, k, p);
      BelowStep(n, k, q);
      BelowSlope(n - 1, k - 1, p, q);
      BelowSlope(n - 1, k, p, q);
      BelowAtMostOneMore(n - 1, k, q);
      MixSlope(p, q, Between(n - 1, 0, k - 1, p), Between(n - 1, 0, k, p),
               Between(n - 1, 0, k - 1, q), Between(n - 1, 0, k, q), (n - 1) as real);
    }
  }

  lemma BelowAtMostOneMore(n: nat, k: int, p: real)
    requires 0.0 <= p <= 1.0
    ensures Between(n, 0, k, p) - Between(n, 0, k - 1, p) <= 1.0
  {
    hide *;
    CdfExact(k, n, p);
    CdfExact(k - 1, n, p);
    TailsComplement(k, n, p);
    TailsComplement(k - 1, n, p);
  }

  lemma TailSlopes(k: int, n: nat, p: real, q: real)
    requires 0.0 <= p <= q <= 1.0
    ensures Cdf(k, n, p) - Cdf(k, n, q) <= n as real * (q - p)
    ensures UpperTail(k, n, q) - UpperTail(k, n, p) <= n as real * (q - p)
  {
    hide *;
    CdfExact(k, n, p);
    CdfExact(k, n, q);
    BelowSlope(n, k, p, q);
    CdfExact(k - 1, n, p);
    CdfExact(k - 1, n, q);
    BelowSlope(n, k - 1, p, q);
    TailsComplement(k - 1, n, p);
    TailsComplement(k - 1, n, q);
  }

  // ----- monotonicity in k

  lemma TailsOrderedInCount(k: int, n: nat, p: real)
    requires 0.0 <= p <= 1.0
    ensures Cdf(k, n, p) <= Cdf(k + 1, n, p) && UpperTail(k, n, p) >= UpperTail(k + 1, n, p)
    ensures Cdf(k, n, p) + UpperTail(k, n, p) >= 1.0
  {
    CdfExact(k - 1, n, p);
    CdfExact(k, n, p);
    CdfExact(k + 1, n, p);
    TailsComplement(k - 1, n, p);
    TailsComplement(k, n, p);
    MassNonnegative(n, k, p);
    MassNonnegative(n, k + 1, p);
  }
}
