/** Independent, identically distributed paired outcomes, and the binomial marginal of each cell. */
module Sampling {
  import opened Binomial
  import opened PairedEquivalence

  // Probabilities of the four cells (reference succeeded, candidate succeeded).
  datatype Table = Table(both: real, refOnly: real, candOnly: real, neither: real) {
    ghost predicate Valid() {
      both >= 0.0 && refOnly >= 0.0 && candOnly >= 0.0 && neither >= 0.0
      && both + refOnly + candOnly + neither == 1.0
    }

    ghost function Of(cell: Pair): real {
      match cell
      case (true, true) => both
      case (true, false) => refOnly
      case (false, true) => candOnly
      case (false, false) => neither
    }

    // True success-rate difference, candidate minus reference.
    ghost function Delta(): real { candOnly - refOnly }
  }

  type Event = seq<Pair> -> bool

  ghost function After(first: Pair, event: Event): Event {
    samples => event([first] + samples)
  }

  ghost function Average(t: Table, tt: real, tf: real, ft: real, ff: real): real {
    t.both * tt + t.refOnly * tf + t.candOnly * ft + t.neither * ff
  }

  // Probability of an event over n pairs drawn independently from the table.
  ghost function Prob(t: Table, n: nat, event: Event): real
    decreases n
  {
    if n == 0 then if event([]) then 1.0 else 0.0
    else Average(t,
      Prob(t, n - 1, After((true, true), event)), Prob(t, n - 1, After((true, false), event)),
      Prob(t, n - 1, After((false, true), event)), Prob(t, n - 1, After((false, false), event)))
  }

  lemma AverageAdds(t: Table, a: real, b: real, c: real, d: real, a': real, b': real, c': real, d': real)
    ensures Average(t, a + a', b + b', c + c', d + d') == Average(t, a, b, c, d) + Average(t, a', b', c', d')
  {
  }

  lemma ProductNonnegative(w: real, a: real)
    requires w >= 0.0 && a >= 0.0
    ensures w * a >= 0.0
  {
  }

  lemma AverageNonnegative(t: Table, a: real, b: real, c: real, d: real)
    requires t.Valid() && a >= 0.0 && b >= 0.0 && c >= 0.0 && d >= 0.0
    ensures Average(t, a, b, c, d) >= 0.0
  {
    ProductNonnegative(t.both, a);
    ProductNonnegative(t.refOnly, b);
    ProductNonnegative(t.candOnly, c);
    ProductNonnegative(t.neither, d);
  }

  lemma AverageBounded(t: Table, a: real, b: real, c: real, d: real, a': real, b': real, c': real, d': real)
    requires t.Valid() && a <= a' && b <= b' && c <= c' && d <= d'
    ensures Average(t, a, b, c, d) <= Average(t, a', b', c', d')
  {
    hide Average;
    AverageNonnegative(t, a' - a, b' - b, c' - c, d' - d);
    AverageAdds(t, a, b, c, d, a' - a, b' - b, c' - c, d' - d);
  }

  lemma AverageConstant(t: Table, a: real)
    requires t.Valid()
    ensures Average(t, a, a, a, a) == a
  {
    assert Average(t, a, a, a, a) == (t.both + t.refOnly + t.candOnly + t.neither) * a;
  }

  // The first pair drawn.
  ghost function FirstPair(t: Table, n: nat, e: Event, x: Pair): real
    requires n > 0
  {
    Prob(t, n - 1, After(x, e))
  }

  lemma ProbStep(t: Table, n: nat, e: Event)
    requires n > 0
    ensures Prob(t, n, e) == Average(t, FirstPair(t, n, e, (true, true)), FirstPair(t, n, e, (true, false)),
                                     FirstPair(t, n, e, (false, true)), FirstPair(t, n, e, (false, false)))
  {
    hide Average;
  }

  // Boole's inequality: an event inside the union of two is no likelier than both together.
  lemma {:induction false} UnionBound(t: Table, n: nat, e: Event, f: Event, g: Event)
    requires t.Valid() && forall s :: |s| == n && e(s) ==> f(s) || g(s)
    ensures Prob(t, n, e) <= Prob(t, n, f) + Prob(t, n, g)
    decreases n, 0
  {
    hide *;
    if n == 0 {
      NoDraws(t, e, f, g);
    } else {
      UnionBoundAfter((true, true), t, n - 1, e, f, g);
      UnionBoundAfter((true, false), t, n - 1, e, f, g);
      UnionBoundAfter((false, true), t, n - 1, e, f, g);
      UnionBoundAfter((false, false), t, n - 1, e, f, g);
      StepsAdd(t, n, e, f, g);
    }
  }

  lemma NoDraws(t: Table, e: Event, f: Event, g: Event)
    requires forall s :: |s| == 0 && e(s) ==> f(s) || g(s)
    ensures Prob(t, 0, e) <= Prob(t, 0, f) + Prob(t, 0, g)
  {
    var none: seq<Pair> := [];
    assert |none| == 0;
  }

  ghost predicate AddsUp(t: Table, n: nat, e: Event, f: Event, g: Event, x: Pair) {
    Prob(t, n, After(x, e)) <= Prob(t, n, After(x, f)) + Prob(t, n, After(x, g))
  }

  // Bounds that hold after every first pair hold from the start.
  lemma StepsAdd(t: Table, n: nat, e: Event, f: Event, g: Event)
    requires t.Valid() && n > 0
    requires AddsUp(t, n - 1, e, f, g, (true, true)) && AddsUp(t, n - 1, e, f, g, (true, false))
    requires AddsUp(t, n - 1, e, f, g, (false, true)) && AddsUp(t, n - 1, e, f, g, (false, false))
    ensures Prob(t, n, e) <= Prob(t, n, f) + Prob(t, n, g)
  {
    ProbStep(t, n, e);
    ProbStep(t, n, f);
    ProbStep(t, n, g);
    hide Average, Prob, After;
    var tt, tf, ft, ff := (true, true), (true, false), (false, true), (false, false);
    var f1, f2, f3, f4 := FirstPair(t, n, f, tt), FirstPair(t, n, f, tf), FirstPair(t, n, f, ft), FirstPair(t, n, f, ff);
    var g1, g2, g3, g4 := FirstPair(t, n, g, tt), FirstPair(t, n, g, tf), FirstPair(t, n, g, ft), FirstPair(t, n, g, ff);
    AverageBounded(t, FirstPair(t, n, e, tt), FirstPair(t, n, e, tf), FirstPair(t, n, e, ft), FirstPair(t, n, e, ff),
                   f1 + g1, f2 + g2, f3 + g3, f4 + g4);
    AverageAdds(t, f1, f2, f3, f4, g1, g2, g3, g4);
  }

  lemma UnionBoundAfter(x: Pair, t: Table, n: nat, e: Event, f: Event, g: Event)
    requires t.Valid() && forall s :: |s| == n + 1 && e(s) ==> f(s) || g(s)
    ensures AddsUp(t, n, e, f, g, x)
    decreases n, 1
  {
    forall s: seq<Pair> | |s| == n && After(x, e)(s)
      ensures After(x, f)(s) || After(x, g)(s)
    {
      assert |[x] + s| == n + 1;
    }
    UnionBound(t, n, After(x, e), After(x, f), After(x, g));
  }

  ghost function Never(): Event { samples => false }

  lemma {:induction false} NeverHasNoChance(t: Table, n: nat, e: Event)
    requires t.Valid() && forall s :: |s| == n ==> !e(s)
    ensures Prob(t, n, e) == 0.0
    decreases n
  {
    hide Average;
    if n > 0 {
      forall x: Pair, s: seq<Pair> | |s| == n - 1
        ensures !After(x, e)(s)
      {
        assert |[x] + s| == n;
      }
      NeverHasNoChance(t, n - 1, After((true, true), e));
      NeverHasNoChance(t, n - 1, After((true, false), e));
      NeverHasNoChance(t, n - 1, After((false, true), e));
      NeverHasNoChance(t, n - 1, After((false, false), e));
      AverageConstant(t, 0.0);
    }
  }

  // A more inclusive event is no less likely.
  lemma ProbMonotone(t: Table, n: nat, e: Event, f: Event)
    requires t.Valid() && forall s :: |s| == n && e(s) ==> f(s)
    ensures Prob(t, n, e) <= Prob(t, n, f)
  {
    UnionBound(t, n, e, f, Never());
    NeverHasNoChance(t, n, Never());
  }

  ghost function Not(event: Event): Event { samples => !event(samples) }

  lemma {:induction false} Complement(t: Table, n: nat, e: Event)
    requires t.Valid()
    ensures Prob(t, n, e) + Prob(t, n, Not(e)) == 1.0
    decreases n, 0
  {
    hide Average;
    if n > 0 {
      var m := n - 1;
      ComplementAfter((true, true), t, m, e);
      ComplementAfter((true, false), t, m, e);
      ComplementAfter((false, true), t, m, e);
      ComplementAfter((false, false), t, m, e);
      AverageAdds(t, Prob(t, m, After((true, true), e)), Prob(t, m, After((true, false), e)),
        Prob(t, m, After((false, true), e)), Prob(t, m, After((false, false), e)),
        Prob(t, m, After((true, true), Not(e))), Prob(t, m, After((true, false), Not(e))),
        Prob(t, m, After((false, true), Not(e))), Prob(t, m, After((false, false), Not(e))));
      AverageConstant(t, 1.0);
    }
  }

  lemma ComplementAfter(x: Pair, t: Table, n: nat, e: Event)
    requires t.Valid()
    ensures Prob(t, n, After(x, e)) + Prob(t, n, After(x, Not(e))) == 1.0
    decreases n, 1
  {
    Complement(t, n, After(x, e));
    ProbMonotone(t, n, After(x, Not(e)), Not(After(x, e)));
    ProbMonotone(t, n, Not(After(x, e)), After(x, Not(e)));
  }

  // ----- marginals

  ghost function CountBetween(cell: Pair, a: int, b: int): Event {
    samples => a <= Count(samples, cell) <= b
  }

  // The number of pairs in one cell is binomial.
  lemma {:induction false} CellCountIsBinomial(t: Table, n: nat, cell: Pair, a: int, b: int)
    requires t.Valid()
    ensures Prob(t, n, CountBetween(cell, a, b)) == Between(n, a, b, t.Of(cell))
    decreases n, 0
  {
    hide Average, Between;
    if n == 0 {
      NoTrials(a, b, t.Of(cell));
    } else {
      CountAfter((true, true), t, n - 1, cell, a, b);
      CountAfter((true, false), t, n - 1, cell, a, b);
      CountAfter((false, true), t, n - 1, cell, a, b);
      CountAfter((false, false), t, n - 1, cell, a, b);
      BetweenStep(n, a, b, t.Of(cell));
      AverageSplits(t, cell, Between(n - 1, a - 1, b - 1, t.Of(cell)), Between(n - 1, a, b, t.Of(cell)));
    }
  }

  lemma CountAfter(x: Pair, t: Table, n: nat, cell: Pair, a: int, b: int)
    requires t.Valid()
    ensures Prob(t, n, After(x, CountBetween(cell, a, b)))
         == if x == cell then Between(n, a - 1, b - 1, t.Of(cell)) else Between(n, a, b, t.Of(cell))
    decreases n, 1
  {
    hide Between;
    var e := After(x, CountBetween(cell, a, b));
    var f := if x == cell then CountBetween(cell, a - 1, b - 1) else CountBetween(cell, a, b);
    forall s: seq<Pair>
      ensures e(s) == f(s)
    {
      assert ([x] + s)[1..] == s;
    }
    ProbMonotone(t, n, e, f);
    ProbMonotone(t, n, f, e);
    if x == cell {
      CellCountIsBinomial(t, n, cell, a - 1, b - 1);
    } else {
      CellCountIsBinomial(t, n, cell, a, b);
    }
  }

  lemma AverageSplits(t: Table, cell: Pair, inside: real, outside: real)
    requires t.Valid()
    ensures Average(t, if cell == (true, true) then inside else outside, if cell == (true, false) then inside else outside,
        if cell == (false, true) then inside else outside, if cell == (false, false) then inside else outside)
         == t.Of(cell) * inside + (1.0 - t.Of(cell)) * outside
  {
    var d := inside - outside;
    AverageConstant(t, outside);
    AverageAdds(t, outside, outside, outside, outside, if cell == (true, true) then d else 0.0,
      if cell == (true, false) then d else 0.0, if cell == (false, true) then d else 0.0,
      if cell == (false, false) then d else 0.0);
    assert t.Of(cell) * inside + (1.0 - t.Of(cell)) * outside == outside + t.Of(cell) * d;
  }

  // In the source's own terms: exactly k pairs in a cell has the probability it sums.
  lemma CellCountMass(t: Table, n: nat, cell: Pair, k: nat)
    requires t.Valid() && k <= n
    ensures Prob(t, n, CountBetween(cell, k, k)) == Term(k, n, t.Of(cell))
  {
    hide *;
    BetweenPoint(n, k, t.Of(cell));
    CellCountIsBinomial(t, n, cell, k, k);
    TermIsMass(k, n, t.Of(cell));
  }
}
