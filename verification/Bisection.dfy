/** Inverting a probability function on [0, 1] by seventy halvings. */
module Bisection {

  const STEPS: nat := 70

  datatype Bracket = Bracket(lower: real, upper: real) {
    function Midpoint(): real { (lower + upper) / 2.0 }
  }

  const UNIT := Bracket(0.0, 1.0)

  // Does the search move its lower end to a point with this value?
  predicate GoesUp(value: real, target: real, increasing: bool) {
    if increasing then value < target else value > target
  }

  function Halve(b: Bracket, up: bool): Bracket {
    if up then b.(lower := b.Midpoint()) else b.(upper := b.Midpoint())
  }

  // The bracket left after some halvings.
  function Bisect(fn: real -> real, target: real, increasing: bool, b: Bracket, steps: nat): Bracket
    decreases steps
  {
    if steps == 0 then b
    else Bisect(fn, target, increasing, Halve(b, GoesUp(fn(b.Midpoint()), target, increasing)), steps - 1)
  }

  function Search(target: real, fn: real -> real, increasing: bool): Bracket {
    Bisect(fn, target, increasing, UNIT, STEPS)
  }

  method SolveProbability(target: real, fn: real -> real, increasing: bool) returns (p: real)
    ensures p == Search(target, fn, increasing).Midpoint()
  {
    var lower, upper := 0.0, 1.0;
    for i := 0 to STEPS
      invariant Bisect(fn, target, increasing, Bracket(lower, upper), STEPS - i) == Search(target, fn, increasing)
    {
      var midpoint := (lower + upper) / 2.0;
      var value := fn(midpoint);
      if increasing {
        if value < target {
          lower := midpoint;
        } else {
          upper := midpoint;
        }
      } else if value > target {
        lower := midpoint;
      } else {
        upper := midpoint;
      }
    }
    p := (lower + upper) / 2.0;
  }

  // 2^-k
  function Half(k: nat): (h: real)
    ensures h > 0.0
  {
    if k == 0 then 1.0 else Half(k - 1) / 2.0
  }

  // The bracket never leaves its start, halves at every step, and each end that moved was moved by the test.
  lemma {:induction false} BisectSound(fn: real -> real, target: real, increasing: bool, b: Bracket, done: nat, steps: nat)
    requires b.upper - b.lower == Half(done)
    ensures var r := Bisect(fn, target, increasing, b, steps);
      && b.lower <= r.lower && r.upper <= b.upper && r.upper - r.lower == Half(done + steps)
      && (r.lower == b.lower || GoesUp(fn(r.lower), target, increasing))
      && (r.upper == b.upper || !GoesUp(fn(r.upper), target, increasing))
    decreases steps
  {
    if steps > 0 {
      var b' := Halve(b, GoesUp(fn(b.Midpoint()), target, increasing));
      BisectSound(fn, target, increasing, b', done + 1, steps - 1);
    }
  }

  lemma SearchSound(target: real, fn: real -> real, increasing: bool)
    ensures var r := Search(target, fn, increasing);
      && 0.0 <= r.lower < r.upper <= 1.0 && r.upper - r.lower == Half(STEPS)
      && (r.lower == 0.0 || GoesUp(fn(r.lower), target, increasing))
      && (r.upper == 1.0 || !GoesUp(fn(r.upper), target, increasing))
      && r.Midpoint() - r.lower == Half(STEPS + 1) && r.upper - r.Midpoint() == Half(STEPS + 1)
  {
    BisectSound(fn, target, increasing, UNIT, 0, STEPS);
  }

  predicate UpImpliesUp(fn: real -> real, target: real, increasing: bool,
                        fn': real -> real, target': real, increasing': bool, p: real)
  {
    GoesUp(fn(p), target, increasing) ==> GoesUp(fn'(p), target', increasing')
  }

  // Two searches on one bracket: if the second goes up wherever the first does, it ends no lower.
  lemma {:induction false} BisectOrdered(fn: real -> real, target: real, increasing: bool,
                                         fn': real -> real, target': real, increasing': bool,
                                         b: Bracket, done: nat, steps: nat)
    requires b.upper - b.lower == Half(done) && 0.0 <= b.lower && b.upper <= 1.0
    requires forall p :: 0.0 < p < 1.0 ==> UpImpliesUp(fn, target, increasing, fn', target', increasing', p)
    ensures Bisect(fn, target, increasing, b, steps).Midpoint() <= Bisect(fn', target', increasing', b, steps).Midpoint()
    decreases steps
  {
    if steps > 0 {
      var m := b.Midpoint();
      assert UpImpliesUp(fn, target, increasing, fn', target', increasing', m);
      var c := Halve(b, GoesUp(fn(m), target, increasing));
      var c' := Halve(b, GoesUp(fn'(m), target', increasing'));
      if c == c' {
        BisectOrdered(fn, target, increasing, fn', target', increasing', c, done + 1, steps - 1);
      } else {
        BisectSound(fn, target, increasing, c, done + 1, steps - 1);
        BisectSound(fn', target', increasing', c', done + 1, steps - 1);
      }
    }
  }

  lemma {:induction false} HalvesMultiply(j: nat, k: nat)
    ensures Half(j + k) == Half(j) * Half(k)
    decreases j
  {
    if j > 0 {
      HalvesMultiply(j - 1, k);
    }
  }

  lemma PowersMultiply(j: nat, a: real, k: nat, b: real)
    requires Half(j) * a == 1.0 && Half(k) * b == 1.0
    ensures Half(j + k) * (a * b) == 1.0
  {
    hide *;
    HalvesMultiply(j, k);
    assert Half(j) * Half(k) * (a * b) == (Half(j) * a) * (Half(k) * b);
  }

  lemma HalfFive()
    ensures Half(5) * 32.0 == 1.0
  {
    assert Half(1) == 0.5 && Half(2) == 0.25 && Half(3) == 0.125;
  }

  lemma HalfSeventy()
    ensures Half(70) * 1180591620717411303424.0 == 1.0
  {
    hide *;
    HalfFive();
    PowersMultiply(5, 32.0, 5, 32.0);
    PowersMultiply(10, 1024.0, 10, 1024.0);
    PowersMultiply(20, 1048576.0, 10, 1024.0);
    PowersMultiply(30, 1073741824.0, 30, 1073741824.0);
    PowersMultiply(60, 1152921504606846976.0, 10, 1024.0);
  }

  // The width a search ends with, in figures.
  lemma SearchWidth(target: real, fn: real -> real, increasing: bool)
    ensures var b := Search(target, fn, increasing);
      (b.upper - b.lower) * 1180591620717411303424.0 == 1.0
  {
    HalfSeventy();
    SearchSound(target, fn, increasing);
    hide Search, Half;
  }
}
