/** The reductions a delta-debugging run records: that they form a chain, and which one comes next. */
module Reductions {
  import opened Wrappers
  import opened Granules

  datatype Kind = Subset | Complement | DropOne

  datatype ReductionStep<T> = ReductionStep(iteration: int, kind: Kind, beforeLen: nat, afterLen: nat, kept: seq<T>)

  // ----- what the recorded steps mean

  ghost predicate StepFrom<T>(before: seq<T>, step: ReductionStep<T>, fails: seq<T> -> bool) {
    && step.beforeLen == |before| && step.afterLen == |step.kept|
    && 0 < step.afterLen < step.beforeLen
    && IsSubseq(step.kept, before) && fails(step.kept)
  }

  ghost function Latest<T>(original: seq<T>, steps: seq<ReductionStep<T>>): seq<T> {
    if steps == [] then original else steps[|steps| - 1].kept
  }

  // Every step shrinks what the one before it left, keeps it failing, and comes later.
  ghost predicate Chain<T(!new)>(original: seq<T>, steps: seq<ReductionStep<T>>, fails: seq<T> -> bool, iterations: int) {
    && (forall i :: 0 <= i < |steps| ==> StepFrom(Latest(original, steps[..i]), steps[i], fails))
    && (forall i :: 0 <= i < |steps| ==> 0 < steps[i].iteration <= iterations)
    && (forall i, j :: 0 <= i < j < |steps| ==> steps[i].iteration < steps[j].iteration)
  }

  // The state of the search: current is where the chain ends, and still fails.
  ghost predicate Reached<T(!new)>(original: seq<T>, current: seq<T>, steps: seq<ReductionStep<T>>,
                                   fails: seq<T> -> bool, iterations: int)
  {
    Chain(original, steps, fails, iterations) && Latest(original, steps) == current
    && current != [] && fails(current) && IsSubseq(current, original)
  }

  lemma SearchStarts<T(!new)>(original: seq<T>, fails: seq<T> -> bool)
    requires original != [] && fails(original)
    ensures Reached(original, original, [], fails, 0)
  {
    SubseqReflexive(original);
  }

  lemma ChainExtends<T(!new)>(original: seq<T>, steps: seq<ReductionStep<T>>, fails: seq<T> -> bool,
                              before: int, step: ReductionStep<T>)
    requires Chain(original, steps, fails, before) && 0 <= before < step.iteration
    requires StepFrom(Latest(original, steps), step, fails)
    ensures Chain(original, steps + [step], fails, step.iteration)
  {
    hide StepFrom;
    var steps' := steps + [step];
    assert steps'[..|steps|] == steps;
    forall i | 0 <= i < |steps'|
      ensures StepFrom(Latest(original, steps'[..i]), steps'[i], fails)
    {
      if i < |steps| {
        assert steps'[..i] == steps[..i];
      }
    }
  }

  lemma SearchAdvances<T(!new)>(original: seq<T>, current: seq<T>, steps: seq<ReductionStep<T>>, fails: seq<T> -> bool,
                                before: int, iterations: int, kind: Kind, kept: seq<T>)
    requires Reached(original, current, steps, fails, before) && 0 <= before < iterations
    requires kept != [] && |kept| < |current| && IsSubseq(kept, current) && fails(kept)
    ensures Reached(original, kept, steps + [ReductionStep(iterations, kind, |current|, |kept|, kept)], fails, iterations)
  {
    hide Chain, IsSubseq;
    SubseqTransitive(kept, current, original);
    ChainExtends(original, steps, fails, before, ReductionStep(iterations, kind, |current|, |kept|, kept));
  }

  lemma SearchWaits<T(!new)>(original: seq<T>, current: seq<T>, steps: seq<ReductionStep<T>>, fails: seq<T> -> bool,
                             before: int, iterations: int)
    requires Reached(original, current, steps, fails, before) && before <= iterations
    ensures Reached(original, current, steps, fails, iterations)
  {
    hide StepFrom, IsSubseq;
  }

  ghost predicate OneMinimal<T>(s: seq<T>, fails: seq<T> -> bool) {
    |s| == 1 || forall i :: 0 <= i < |s| ==> !fails(Dropped(s, i))
  }

  function Dropped<T>(s: seq<T>, i: nat): seq<T>
    requires i < |s|
  {
    s[..i] + s[i + 1..]
  }

  lemma DroppedIsSubseq<T>(s: seq<T>, i: nat)
    requires i < |s|
    ensures IsSubseq(Dropped(s, i), s)
  {
    assert s == s[..i] + [s[i]] + s[i + 1..];
    PiecesAreSubseqs(s[..i], [s[i]], s[i + 1..]);
  }

  // ----- which reduction comes next

  // The first candidate that fails; past the end where none does.
  ghost function FirstFailing<T>(cs: seq<seq<T>>, fails: seq<T> -> bool): (j: nat)
    ensures j <= |cs|
    ensures forall i :: 0 <= i < j ==> !fails(cs[i])
    ensures j < |cs| ==> fails(cs[j])
  {
    if cs == [] || fails(cs[0]) then 0 else 1 + FirstFailing(cs[1..], fails)
  }

  ghost function Complements<T>(s: seq<T>, parts: seq<seq<T>>): (cs: seq<seq<T>>)
    ensures |cs| == |parts|
  {
    seq(|parts|, j requires 0 <= j < |parts| => Remainder(s, parts[j]))
  }

  ghost function Drops<T>(s: seq<T>): seq<seq<T>> {
    seq(|s|, j requires 0 <= j < |s| => Dropped(s, j))
  }

  // What one round tries, in order: every part, then every complement of one.
  ghost function Candidates<T>(current: seq<T>, n: nat): seq<seq<T>>
    requires 2 <= n <= |current|
  {
    Cuts(current, n) + Complements(current, Cuts(current, n))
  }

  // The reduction found, and the granularity to go on with; or every round tried in vain.
  datatype Outcome<T> = Hit(step: ReductionStep<T>, grain: nat) | Stuck(iterations: int)

  // The rounds from granularity n on, without a budget. A round is charged one iteration, and one for each try.
  ghost function Search<T>(current: seq<T>, n: nat, iterations: int, fails: seq<T> -> bool): Outcome<T>
    decreases |current| - n
  {
    if !(2 <= n <= |current|) then Stuck(iterations)
    else
      var cs := Candidates(current, n);
      var j := FirstFailing(cs, fails);
      if j < |cs| then
        Hit(ReductionStep(iterations + 2 + j, if j < n then Subset else Complement, |current|, |cs[j]|, cs[j]),
            if j < n then 2 else Max(n - 1, 2))
      else if n == |current| then Stuck(iterations + 1 + 2 * n)
      else Search(current, Min(|current|, 2 * n), iterations + 1 + 2 * n, fails)
  }

  function LastIteration<T>(steps: seq<ReductionStep<T>>): int {
    if steps == [] then 0 else steps[|steps| - 1].iteration
  }

  predicate Dropping<T>(steps: seq<ReductionStep<T>>) {
    steps != [] && steps[|steps| - 1].kind.DropOne?
  }

  // What the granularity rounds find after these reductions.
  ghost function Next<T>(original: seq<T>, steps: seq<ReductionStep<T>>, fails: seq<T> -> bool): Outcome<T>
    decreases |steps|, 1
  {
    Search(Latest(original, steps), Grain(original, steps, fails), LastIteration(steps), fails)
  }

  ghost function Grain<T>(original: seq<T>, steps: seq<ReductionStep<T>>, fails: seq<T> -> bool): nat
    decreases |steps|, 0
  {
    if steps == [] then 2
    else
      var last := Next(original, steps[..|steps| - 1], fails);
      if last.Hit? then last.grain else 2
  }

  // One element less: the first of the drops that fails.
  ghost predicate DropStep<T>(before: seq<T>, begun: int, step: ReductionStep<T>, fails: seq<T> -> bool) {
    var j := FirstFailing(Drops(before), fails);
    j < |before| && step == ReductionStep(begun + j + 1, DropOne, |before|, |before| - 1, Dropped(before, j))
  }

  // Drops begin where no round finds anything, and follow one another.
  ghost predicate DropsBegin<T>(original: seq<T>, steps: seq<ReductionStep<T>>, begun: int, fails: seq<T> -> bool) {
    if Dropping(steps) then begun == LastIteration(steps) else Next(original, steps, fails) == Stuck(begun)
  }

  ghost predicate Expected<T>(original: seq<T>, steps: seq<ReductionStep<T>>, step: ReductionStep<T>, fails: seq<T> -> bool) {
    if step.kind.DropOne? then
      exists begun :: DropsBegin(original, steps, begun, fails) && DropStep(Latest(original, steps), begun, step, fails)
    else
      !Dropping(steps) && Next(original, steps, fails).Hit? && step == Next(original, steps, fails).step
  }

  // Every step is the first its round could take, and rounds follow in the order of the source.
  ghost predicate Ordered<T>(original: seq<T>, steps: seq<ReductionStep<T>>, fails: seq<T> -> bool) {
    forall i :: 0 <= i < |steps| ==> Expected(original, steps[..i], steps[i], fails)
  }

  lemma OrderedExtends<T>(original: seq<T>, steps: seq<ReductionStep<T>>, step: ReductionStep<T>, fails: seq<T> -> bool)
    requires Ordered(original, steps, fails) && Expected(original, steps, step, fails)
    ensures Ordered(original, steps + [step], fails)
    ensures LastIteration(steps + [step]) == step.iteration && Dropping(steps + [step]) == step.kind.DropOne?
    ensures var next := Next(original, steps, fails);
      Grain(original, steps + [step], fails) == if next.Hit? then next.grain else 2
  {
    hide Expected, Next;
    var steps' := steps + [step];
    assert steps'[..|steps|] == steps;
    forall i | 0 <= i < |steps'|
      ensures Expected(original, steps'[..i], steps'[i], fails)
    {
      if i < |steps| {
        assert steps'[..i] == steps[..i];
      }
    }
  }

  // ----- what that means

  function Pow2(k: nat): (p: nat)
    ensures p >= 1
  {
    if k == 0 then 1 else 2 * Pow2(k - 1)
  }

  // The granularity after k rounds in vain.
  function Doubled(n: nat, k: nat, length: nat): (m: nat)
    ensures m <= length && (n <= length ==> n <= m)
  {
    AtLeast(n, Pow2(k));
    Min(length, n * Pow2(k))
  }

  lemma DoubledNext(n: nat, k: nat, length: nat)
    requires n <= length
    ensures Doubled(Min(length, 2 * n), k, length) == Doubled(n, k + 1, length)
  {
    var p := Pow2(k);
    assert Pow2(k + 1) == 2 * p;
    hide Pow2;
    Reassociate(n, p);
    if length <= 2 * n {
      AtLeast(length, p);
      AtLeast(2 * n, p);
    }
  }

  lemma Reassociate(n: nat, p: nat)
    ensures n * (2 * p) == 2 * n * p
  {
  }

  lemma AtLeast(n: nat, p: nat)
    requires p >= 1
    ensures n * p >= n
  {
  }

  // What k rounds in vain are charged.
  function Spent(n: nat, k: nat, length: nat): nat {
    if k == 0 then 0 else Spent(n, k - 1, length) + 1 + 2 * Doubled(n, k - 1, length)
  }

  lemma {:induction false} SpentFirst(n: nat, k: nat, length: nat)
    requires n <= length
    ensures Spent(n, k + 1, length) == 1 + 2 * n + Spent(Min(length, 2 * n), k, length)
  {
    if k == 0 {
      DoubledZero(n, length);
    } else {
      SpentFirst(n, k - 1, length);
      DoubledNext(n, k - 1, length);
    }
  }

  ghost predicate NoneFails<T>(cs: seq<seq<T>>, fails: seq<T> -> bool) {
    forall i :: 0 <= i < |cs| ==> !fails(cs[i])
  }

  ghost predicate FirstToFail<T>(cs: seq<seq<T>>, j: nat, kept: seq<T>, fails: seq<T> -> bool) {
    j < |cs| && cs[j] == kept && fails(kept) && forall i :: 0 <= i < j ==> !fails(cs[i])
  }

  ghost predicate InVain<T>(current: seq<T>, n: nat, k: nat, fails: seq<T> -> bool)
    requires 2 <= n <= |current|
  {
    forall i: nat :: i < k ==> NoneFails(Candidates(current, Doubled(n, i, |current|)), fails)
  }

  lemma OneMoreInVain<T>(current: seq<T>, n: nat, k: nat, fails: seq<T> -> bool)
    requires 2 <= n <= |current| && NoneFails(Candidates(current, n), fails)
    requires InVain(current, Min(|current|, 2 * n), k, fails)
    ensures InVain(current, n, k + 1, fails)
  {
    hide NoneFails, Candidates, Doubled;
    forall i: nat | i < k + 1
      ensures NoneFails(Candidates(current, Doubled(n, i, |current|)), fails)
    {
      if i > 0 {
        DoubledNext(n, i - 1, |current|);
      } else {
        DoubledZero(n, |current|);
      }
    }
  }

  lemma DoubledZero(n: nat, length: nat)
    requires n <= length
    ensures Doubled(n, 0, length) == n
  {
  }

  // A round that finds something, and one in vain.
  lemma RoundHits<T>(current: seq<T>, n: nat, iterations: int, fails: seq<T> -> bool)
    requires 2 <= n <= |current| && !NoneFails(Candidates(current, n), fails)
    ensures var cs := Candidates(current, n);
      var j := FirstFailing(cs, fails);
      && FirstToFail(cs, j, cs[j], fails)
      && Search(current, n, iterations, fails)
         == Hit(ReductionStep(iterations + 2 + j, if j < n then Subset else Complement, |current|, |cs[j]|, cs[j]),
                if j < n then 2 else Max(n - 1, 2))
  {
    hide Candidates;
  }

  lemma RoundInVain<T>(current: seq<T>, n: nat, iterations: int, fails: seq<T> -> bool)
    requires 2 <= n <= |current| && NoneFails(Candidates(current, n), fails)
    ensures Search(current, n, iterations, fails)
         == if n == |current| then Stuck(iterations + 1 + 2 * n)
            else Search(current, Min(|current|, 2 * n), iterations + 1 + 2 * n, fails)
  {
    hide Candidates;
  }

  // The rounds double the granularity until a candidate fails; what is kept is the first that does, and the next search
  // starts over after a part and one granule coarser after a complement.
  lemma {:induction false} HitMeaning<T>(current: seq<T>, n: nat, iterations: int, fails: seq<T> -> bool)
    returns (k: nat, j: nat)
    requires 2 <= n <= |current| && Search(current, n, iterations, fails).Hit?
    ensures InVain(current, n, k, fails)
    ensures var hit, m := Search(current, n, iterations, fails), Doubled(n, k, |current|);
      && FirstToFail(Candidates(current, m), j, hit.step.kept, fails)
      && hit.step.kind == (if j < m then Subset else Complement)
      && hit.grain == (if j < m then 2 else Max(m - 1, 2))
      && hit.step.iteration == iterations + Spent(n, k, |current|) + 2 + j
    decreases |current| - n
  {
    hide Candidates, Search, NoneFails, Doubled, FirstToFail;
    if NoneFails(Candidates(current, n), fails) {
      RoundInVain(current, n, iterations, fails);
      k, j := HitMeaning(current, Min(|current|, 2 * n), iterations + 1 + 2 * n, fails);
      OneMoreInVain(current, n, k, fails);
      DoubledNext(n, k, |current|);
      SpentFirst(n, k, |current|);
      k := k + 1;
    } else {
      RoundHits(current, n, iterations, fails);
      k, j := 0, FirstFailing(Candidates(current, n), fails);
      DoubledZero(n, |current|);
    }
  }

  // A search gets stuck exactly when no candidate of any of its rounds fails, the last of them with single elements.
  lemma {:induction false} StuckMeaning<T>(current: seq<T>, n: nat, iterations: int, fails: seq<T> -> bool) returns (k: nat)
    requires 2 <= n <= |current| && Search(current, n, iterations, fails).Stuck?
    ensures InVain(current, n, k + 1, fails) && Doubled(n, k, |current|) == |current|
    ensures Search(current, n, iterations, fails) == Stuck(iterations + Spent(n, k + 1, |current|))
    decreases |current| - n
  {
    hide Candidates, Search, NoneFails, Doubled;
    if !NoneFails(Candidates(current, n), fails) {
      RoundHits(current, n, iterations, fails);
      assert false;
    }
    RoundInVain(current, n, iterations, fails);
    if n == |current| {
      k := 0;
      DoubledZero(n, |current|);
    } else {
      k := StuckMeaning(current, Min(|current|, 2 * n), iterations + 1 + 2 * n, fails);
      OneMoreInVain(current, n, k + 1, fails);
      DoubledNext(n, k, |current|);
      SpentFirst(n, k + 1, |current|);
      k := k + 1;
    }
  }
}
