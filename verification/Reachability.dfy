/** Bounded breadth-first search over the action graph, and the unreachable-action finding it supports. */
module Reachability {

  type Action = string

  // Sorted successor lists; an action without an entry has none.
  type Graph = map<Action, seq<Action>>

  function Successors(g: Graph, a: Action): seq<Action> {
    if a in g then g[a] else []
  }

  datatype ReachabilityResult = ReachabilityResult(depths: map<Action, nat>, bound: int, truncated: bool) {
    function ReachableActions(): set<Action> { depths.Keys }
  }

  // ----- distance from the seeds

  // Can the action be reached in at most k steps?
  ghost predicate Within(g: Graph, seeds: set<Action>, k: nat, x: Action) {
    if k == 0 then x in seeds
    else Within(g, seeds, k - 1, x) || exists y :: Within(g, seeds, k - 1, y) && x in Successors(g, y)
  }

  ghost predicate IsDistance(g: Graph, seeds: set<Action>, x: Action, d: nat) {
    Within(g, seeds, d, x) && (d > 0 ==> !Within(g, seeds, d - 1, x))
  }

  // A walk from a seed along edges.
  ghost predicate IsPath(g: Graph, seeds: set<Action>, p: seq<Action>) {
    p != [] && p[0] in seeds && forall i :: 0 <= i < |p| - 1 ==> p[i + 1] in Successors(g, p[i])
  }

  ghost predicate PathTo(g: Graph, seeds: set<Action>, p: seq<Action>, x: Action) {
    IsPath(g, seeds, p) && p[|p| - 1] == x
  }

  lemma {:induction false} WithinGrows(g: Graph, seeds: set<Action>, k: nat, m: nat, x: Action)
    requires k <= m && Within(g, seeds, k, x)
    ensures Within(g, seeds, m, x)
    decreases m
  {
    if k < m {
      WithinGrows(g, seeds, k, m - 1, x);
    }
  }

  lemma {:induction false} PathIsWithin(g: Graph, seeds: set<Action>, p: seq<Action>)
    requires IsPath(g, seeds, p)
    ensures Within(g, seeds, |p| - 1, p[|p| - 1])
    decreases |p|
  {
    if |p| > 1 {
      var q := p[..|p| - 1];
      PathIsWithin(g, seeds, q);
      assert p[|p| - 1] in Successors(g, q[|q| - 1]);
    }
  }

  lemma {:induction false} WithinHasPath(g: Graph, seeds: set<Action>, k: nat, x: Action) returns (p: seq<Action>)
    requires Within(g, seeds, k, x)
    ensures PathTo(g, seeds, p, x) && |p| <= k + 1
    decreases k
  {
    if k == 0 {
      p := [x];
    } else if Within(g, seeds, k - 1, x) {
      p := WithinHasPath(g, seeds, k - 1, x);
    } else {
      var y :| Within(g, seeds, k - 1, y) && x in Successors(g, y);
      var q := WithinHasPath(g, seeds, k - 1, y);
      p := q + [x];
    }
  }

  // The distance is the number of edges of a shortest path.
  lemma DistanceIsShortest(g: Graph, seeds: set<Action>, x: Action, d: nat)
    ensures IsDistance(g, seeds, x, d)
        <==> (exists p :: PathTo(g, seeds, p, x) && |p| == d + 1) && forall p :: PathTo(g, seeds, p, x) ==> |p| >= d + 1
  {
    hide Within;
    forall p | PathTo(g, seeds, p, x)
      ensures Within(g, seeds, |p| - 1, x)
      ensures d > 0 && |p| <= d ==> Within(g, seeds, d - 1, x)
    {
      PathIsWithin(g, seeds, p);
      if d > 0 && |p| <= d {
        WithinGrows(g, seeds, |p| - 1, d - 1, x);
      }
    }
    if Within(g, seeds, d, x) {
      var p := WithinHasPath(g, seeds, d, x);
    }
    if d > 0 && Within(g, seeds, d - 1, x) {
      var p := WithinHasPath(g, seeds, d - 1, x);
    }
  }

  ghost predicate Reachable(g: Graph, seeds: set<Action>, x: Action) {
    exists p :: PathTo(g, seeds, p, x)
  }

  // ----- the seeds

  // Everything some actor may do, or every action when no actor declares any; known actions only.
  function SeedActions(actions: set<Action>, available: seq<seq<Action>>): set<Action> {
    var declared := set i, a | 0 <= i < |available| && a in available[i] :: a;
    (if declared == {} then actions else declared) * actions
  }

  // An action is a seed when it is known and some actor lists it, or when no actor lists anything.
  lemma SeedsExactly(actions: set<Action>, available: seq<seq<Action>>, a: Action)
    ensures a in SeedActions(actions, available)
        <==> a in actions && ((exists i :: 0 <= i < |available| && a in available[i])
                              || forall i :: 0 <= i < |available| ==> available[i] == [])
  {
    var declared := set i, b | 0 <= i < |available| && b in available[i] :: b;
    if i :| 0 <= i < |available| && available[i] != [] {
      var x := available[i][0];
      assert x in available[i] && x in declared;
    }
  }

  // ----- the search

  function Budget(bound: int, actionCount: nat): int {
    bound * (if actionCount >= 1 then actionCount else 1)
  }

  // The bound for each action, and for one where there is none.
  lemma BudgetExactly(bound: int, actionCount: nat)
    ensures Budget(bound, 0) == Budget(bound, 1) == bound
    ensures Budget(bound, actionCount + 2) == Budget(bound, actionCount + 1) + bound
  {
    Times(bound, actionCount + 1);
  }

  lemma Times(a: int, n: nat)
    ensures a * (n + 1) == a * n + a
  {
  }

  ghost function Universe(g: Graph, seeds: seq<Action>): set<Action> {
    (set x | x in seeds) + (set a, x | a in g && x in g[a] :: x)
  }

  // Depths so far are exact, and every action off the queue and short of the bound has its successors recorded.
  ghost predicate Explored(g: Graph, seeds: set<Action>, depths: map<Action, nat>, queue: seq<Action>, bound: int) {
    && (forall x :: x in seeds ==> x in depths)
    && (forall x :: x in depths ==> IsDistance(g, seeds, x, depths[x]))
    && (forall x, y :: x in depths && x !in queue && depths[x] < bound && y in Successors(g, x) ==> y in depths)
  }

  // The queue is in order of depth, and spans at most two levels.
  ghost predicate InOrder(depths: map<Action, nat>, queue: seq<Action>) {
    && (forall x :: x in queue ==> x in depths)
    && (forall i, j :: 0 <= i < j < |queue| ==> depths[queue[i]] <= depths[queue[j]] <= depths[queue[i]] + 1)
  }

  ghost predicate Shallow(depths: map<Action, nat>, bound: int) {
    forall x :: x in depths ==> depths[x] == 0 || depths[x] <= bound
  }

  // A recorded distance is no more than the length of any walk.
  lemma DistanceIsLeast(g: Graph, seeds: set<Action>, y: Action, e: nat, k: nat)
    requires IsDistance(g, seeds, y, e) && Within(g, seeds, k, y)
    ensures e <= k
  {
    hide Within;
    if e > k {
      WithinGrows(g, seeds, k, e - 1, y);
    }
  }

  // Levels below the head of the queue are complete.
  lemma {:induction false} LevelsComplete(g: Graph, seeds: set<Action>, depths: map<Action, nat>, queue: seq<Action>,
                                          bound: int, d: nat, k: nat, x: Action)
    requires Explored(g, seeds, depths, queue, bound) && k <= d && d <= bound
    requires forall y :: y in queue && y in depths ==> d <= depths[y]
    requires Within(g, seeds, k, x)
    ensures x in depths
    decreases k
  {
    hide IsDistance;
    if k > 0 {
      if Within(g, seeds, k - 1, x) {
        LevelsComplete(g, seeds, depths, queue, bound, d, k - 1, x);
      } else {
        var y := Predecessor(g, seeds, k, x);
        LevelsComplete(g, seeds, depths, queue, bound, d, k - 1, y);
        DistanceIsLeast(g, seeds, y, depths[y], k - 1);
      }
    }
  }

  lemma Predecessor(g: Graph, seeds: set<Action>, k: nat, x: Action) returns (y: Action)
    requires k > 0 && Within(g, seeds, k, x) && !Within(g, seeds, k - 1, x)
    ensures Within(g, seeds, k - 1, y) && x in Successors(g, y)
  {
    y :| Within(g, seeds, k - 1, y) && x in Successors(g, y);
  }

  // A newly met successor of the head lies exactly one level deeper.
  lemma NewIsNextLevel(g: Graph, seeds: set<Action>, depths: map<Action, nat>, queue: seq<Action>, bound: int,
                       current: Action, x: Action)
    requires Explored(g, seeds, depths, queue, bound) && current in depths && depths[current] < bound
    requires forall y :: y in queue && y in depths ==> depths[current] <= depths[y]
    requires x in Successors(g, current) && x !in depths
    ensures IsDistance(g, seeds, x, depths[current] + 1)
  {
    var d := depths[current];
    assert Within(g, seeds, d, current);
    if Within(g, seeds, d, x) {
      LevelsComplete(g, seeds, depths, queue, bound, d, d, x);
    }
  }

  function Origin(seeds: seq<Action>): set<Action> {
    set s | s in seeds :: s
  }

  // Recording a new successor of the head.
  lemma Discover(g: Graph, seeds: set<Action>, depths: map<Action, nat>, queue: seq<Action>, bound: int, x: Action)
    requires queue != [] && Explored(g, seeds, depths, queue, bound) && InOrder(depths, queue) && Shallow(depths, bound)
    requires depths[queue[0]] < bound && x in Successors(g, queue[0]) && x !in depths
    ensures var d := depths[x := depths[queue[0]] + 1];
      Explored(g, seeds, d, queue + [x], bound) && InOrder(d, queue + [x]) && Shallow(d, bound)
  {
    hide IsDistance;
    NewIsNextLevel(g, seeds, depths, queue, bound, queue[0], x);
  }

  // Taking a fully expanded head, or one at the bound, off the queue.
  lemma Retire(g: Graph, seeds: set<Action>, depths: map<Action, nat>, queue: seq<Action>, bound: int)
    requires queue != [] && Explored(g, seeds, depths, queue, bound) && InOrder(depths, queue)
    requires depths[queue[0]] < bound ==> forall y :: y in Successors(g, queue[0]) ==> y in depths
    ensures Explored(g, seeds, depths, queue[1..], bound) && InOrder(depths, queue[1..])
  {
    hide IsDistance;
    assert forall x :: x in queue <==> x == queue[0] || x in queue[1..];
  }

  // An empty queue: every level up to the bound is there.
  lemma Exhausted(g: Graph, seeds: set<Action>, depths: map<Action, nat>, bound: int, x: Action)
    requires Explored(g, seeds, depths, [], bound) && Shallow(depths, bound) && bound >= 0
    ensures x in depths <==> Within(g, seeds, bound, x)
  {
    if x in depths {
      WithinGrows(g, seeds, depths[x], bound, x);
    }
    if Within(g, seeds, bound, x) {
      LevelsComplete(g, seeds, depths, [], bound, bound, bound, x);
    }
  }

  // Nothing stopped at the bound: every path stays among the recorded actions.
  lemma {:induction false} Closed(g: Graph, seeds: set<Action>, depths: map<Action, nat>, bound: int, k: nat, x: Action)
    requires Explored(g, seeds, depths, [], bound) && forall y :: y in depths ==> depths[y] < bound
    requires Within(g, seeds, k, x)
    ensures x in depths
    decreases k
  {
    if k > 0 {
      if Within(g, seeds, k - 1, x) {
        Closed(g, seeds, depths, bound, k - 1, x);
      } else {
        var y :| Within(g, seeds, k - 1, y) && x in Successors(g, y);
        Closed(g, seeds, depths, bound, k - 1, y);
      }
    }
  }

  lemma Complete(g: Graph, seeds: set<Action>, depths: map<Action, nat>, bound: int)
    requires Explored(g, seeds, depths, [], bound) && forall y :: y in depths ==> depths[y] < bound
    ensures forall x :: x in depths <==> Reachable(g, seeds, x)
  {
    forall x
      ensures x in depths <==> Reachable(g, seeds, x)
    {
      if x in depths {
        var p := WithinHasPath(g, seeds, depths[x], x);
      }
      if Reachable(g, seeds, x) {
        var p :| PathTo(g, seeds, p, x);
        PathIsWithin(g, seeds, p);
        Closed(g, seeds, depths, bound, |p| - 1, x);
      }
    }
  }

  lemma SuccessorsInUniverse(g: Graph, seeds: seq<Action>, a: Action, x: Action)
    requires x in Successors(g, a)
    ensures x in Universe(g, seeds)
  {
  }

  lemma Shrinks(universe: set<Action>, known: set<Action>, known': set<Action>)
    requires known <= known' <= universe
    ensures known' != known ==> |universe - known'| < |universe - known|
  {
    if known' != known {
      var x :| x in known' && x !in known;
      assert universe - known' <= universe - known - {x};
      SubsetSize(universe - known', universe - known - {x});
    }
  }

  lemma SubsetSize(a: set<Action>, b: set<Action>)
    requires a <= b
    ensures |a| <= |b|
  {
    assert b == a + (b - a);
    assert |b| == |a| + |b - a|;
  }

  // Nothing yet discovered: the seeds wait in the queue.
  lemma SeedsExplored(g: Graph, seeds: seq<Action>, depths: map<Action, nat>, bound: int)
    requires forall x :: x in depths <==> x in seeds
    requires forall x :: x in depths ==> depths[x] == 0
    ensures Explored(g, Origin(seeds), depths, seeds, bound) && InOrder(depths, seeds) && Shallow(depths, bound)
    ensures depths.Keys <= Universe(g, seeds)
  {
    forall x | x in depths
      ensures IsDistance(g, Origin(seeds), x, depths[x])
    {
      assert x in Origin(seeds);
    }
  }

  ghost predicate BelowBound(depths: map<Action, nat>, queue: seq<Action>, bound: int) {
    forall x :: x in depths && x !in queue ==> depths[x] < bound
  }

  // The state the search keeps between steps.
  ghost predicate Searching(g: Graph, seeds: seq<Action>, depths: map<Action, nat>, queue: seq<Action>, bound: int,
                            truncated: bool)
  {
    && Explored(g, Origin(seeds), depths, queue, bound) && InOrder(depths, queue) && Shallow(depths, bound)
    && depths.Keys <= Universe(g, seeds)
    && (!truncated ==> BelowBound(depths, queue, bound))
  }

  lemma DiscoverStep(g: Graph, seeds: seq<Action>, depths: map<Action, nat>, queue: seq<Action>, bound: int,
                     truncated: bool, x: Action)
    requires Searching(g, seeds, depths, queue, bound, truncated) && queue != [] && queue[0] in depths
    requires depths[queue[0]] < bound && x in Successors(g, queue[0]) && x !in depths
    ensures Searching(g, seeds, depths[x := depths[queue[0]] + 1], queue + [x], bound, truncated)
  {
    hide Explored, InOrder, Shallow, BelowBound, Universe;
    Discover(g, Origin(seeds), depths, queue, bound, x);
    SuccessorsInUniverse(g, seeds, queue[0], x);
    StaysBelow(depths, queue, bound, x, depths[queue[0]] + 1);
  }

  lemma RetireStep(g: Graph, seeds: seq<Action>, depths: map<Action, nat>, queue: seq<Action>, bound: int, truncated: bool)
    requires Searching(g, seeds, depths, queue, bound, truncated) && queue != [] && queue[0] in depths
    requires depths[queue[0]] < bound ==> forall y :: y in Successors(g, queue[0]) ==> y in depths
    requires depths[queue[0]] < bound || truncated
    ensures Searching(g, seeds, depths, queue[1..], bound, truncated)
  {
    hide Explored, InOrder, Shallow, BelowBound, Universe;
    Retire(g, Origin(seeds), depths, queue, bound);
    if depths[queue[0]] < bound {
      RetiredBelow(depths, queue, bound);
    }
  }

  // ----- what the search is charged

  // One for every successor of every action in the set.
  ghost function EdgesOut(g: Graph, s: set<Action>): nat {
    if s == {} then 0
    else
      var a :| a in s;
      |Successors(g, a)| + EdgesOut(g, s - {a})
  }

  lemma {:induction false} EdgesOutAdd(g: Graph, s: set<Action>, a: Action)
    requires a !in s
    ensures EdgesOut(g, s + {a}) == EdgesOut(g, s) + |Successors(g, a)|
    decreases |s|
  {
    hide Successors;
    var t := s + {a};
    var b :| b in t && EdgesOut(g, t) == |Successors(g, b)| + EdgesOut(g, t - {b});
    if b == a {
      assert t - {b} == s;
    } else {
      assert t - {b} == (s - {b}) + {a};
      EdgesOutAdd(g, s - {b}, a);
      EdgesOutAdd(g, s - {b}, b);
      assert (s - {b}) + {b} == s;
    }
  }

  lemma {:induction false} EdgesOutGrows(g: Graph, s: set<Action>, t: set<Action>)
    requires s <= t
    ensures EdgesOut(g, s) <= EdgesOut(g, t)
    decreases |t|
  {
    hide EdgesOut, Successors;
    if s != t {
      var a :| a in t && a !in s;
      EdgesOutGrows(g, s, t - {a});
      EdgesOutAdd(g, t - {a}, a);
      assert t - {a} + {a} == t;
    }
  }

  predicate Once(xs: seq<Action>) { forall i, j :: 0 <= i < j < |xs| ==> xs[i] != xs[j] }

  // Every action waits at most once, and those expanded have been charged for.
  ghost predicate Accounted(g: Graph, depths: map<Action, nat>, queue: seq<Action>, expanded: set<Action>, expansions: int,
                            truncated: bool)
  {
    && Once(queue) && (forall x :: x in queue ==> x in depths && x !in expanded) && expanded <= depths.Keys
    && expansions == EdgesOut(g, expanded)
    && (!truncated ==> forall x :: x in depths ==> x in queue || x in expanded)
  }

  lemma AccountStarts(g: Graph, seeds: seq<Action>, depths: map<Action, nat>)
    requires Once(seeds) && forall x :: x in depths <==> x in seeds
    ensures Accounted(g, depths, seeds, {}, 0, false)
  {
  }

  lemma AccountDropped(g: Graph, depths: map<Action, nat>, queue: seq<Action>, expanded: set<Action>, expansions: int,
                       truncated: bool)
    requires Accounted(g, depths, queue, expanded, expansions, truncated) && queue != []
    ensures Accounted(g, depths, queue[1..], expanded, expansions, true)
  {
    assert forall x :: x in queue[1..] ==> x in queue;
  }

  // What the head's expansion adds to the queue is new.
  ghost predicate Appends(known: map<Action, nat>, waiting: seq<Action>, depths: map<Action, nat>, queue: seq<Action>) {
    && (Once(waiting) && (forall x :: x in waiting ==> x in known) ==> Once(queue))
    && waiting <= queue && (forall x :: x in queue ==> x in waiting || x !in known)
    && (forall x :: x in depths ==> x in known || x in queue)
  }

  lemma AppendsOne(known: map<Action, nat>, waiting: seq<Action>, depths: map<Action, nat>, queue: seq<Action>, x: Action, d: nat)
    requires Appends(known, waiting, depths, queue) && x !in depths
    requires (forall y :: y in known ==> y in depths) && forall y :: y in queue ==> y in depths
    ensures Appends(known, waiting, depths[x := d], queue + [x])
  {
  }

  lemma AccountExpanded(g: Graph, known: map<Action, nat>, waiting: seq<Action>, expanded: set<Action>, spent: int,
                        truncated: bool, depths: map<Action, nat>, queue: seq<Action>, expansions: int)
    requires Accounted(g, known, waiting, expanded, spent, truncated) && waiting != []
    requires Appends(known, waiting, depths, queue) && known.Keys <= depths.Keys && forall x :: x in queue ==> x in depths
    requires expansions == spent + |Successors(g, waiting[0])|
    ensures queue != [] && queue[0] == waiting[0]
    ensures Accounted(g, depths, queue[1..], expanded + {waiting[0]}, expansions, truncated)
  {
    hide EdgesOut, Successors;
    EdgesOutAdd(g, expanded, waiting[0]);
    assert queue[0] == waiting[0];
    assert forall x :: x in queue <==> x == queue[0] || x in queue[1..];
  }

  lemma AccountEnds(g: Graph, depths: map<Action, nat>, expanded: set<Action>, expansions: int, truncated: bool)
    requires Accounted(g, depths, [], expanded, expansions, truncated)
    ensures expansions <= EdgesOut(g, depths.Keys) && (!truncated ==> expansions == EdgesOut(g, depths.Keys))
  {
    EdgesOutGrows(g, expanded, depths.Keys);
    if !truncated {
      assert expanded == depths.Keys;
    }
  }

  lemma AccountCut(g: Graph, known: map<Action, nat>, waiting: seq<Action>, expanded: set<Action>, spent: int,
                   truncated: bool, depths: map<Action, nat>, expansions: int)
    requires Accounted(g, known, waiting, expanded, spent, truncated) && waiting != []
    requires known.Keys <= depths.Keys && expansions <= spent + |Successors(g, waiting[0])|
    ensures expansions <= EdgesOut(g, depths.Keys)
  {
    hide EdgesOut, Successors;
    EdgesOutAdd(g, expanded, waiting[0]);
    EdgesOutGrows(g, expanded + {waiting[0]}, depths.Keys);
  }

  // Recorded depths are never revised.
  ghost predicate Extends(depths: map<Action, nat>, known: map<Action, nat>) {
    forall x :: x in known ==> x in depths && depths[x] == known[x]
  }

  // Some recorded action lies at the depth bound, so nothing beyond it was tried.
  ghost predicate Stopped(depths: map<Action, nat>, bound: int) {
    exists x :: x in depths && depths[x] >= bound
  }

  lemma AppendsNothing(known: map<Action, nat>, waiting: seq<Action>)
    ensures Appends(known, waiting, known, waiting)
  {
  }

  lemma SearchingQueue(g: Graph, seeds: seq<Action>, depths: map<Action, nat>, queue: seq<Action>, bound: int, truncated: bool)
    requires Searching(g, seeds, depths, queue, bound, truncated)
    ensures forall x :: x in queue ==> x in depths
  {
    hide Explored, Shallow, Universe;
  }

  // Try every successor of the head, until the expansion budget runs out.
  method ExpandHead(g: Graph, seeds: seq<Action>, known: map<Action, nat>, waiting: seq<Action>, bound: int, budget: int,
                    spent: int, truncatedBefore: bool)
    returns (depths: map<Action, nat>, queue: seq<Action>, expansions: int, exceeded: bool)
    requires Searching(g, seeds, known, waiting, bound, truncatedBefore) && waiting != [] && waiting[0] in known
    requires known[waiting[0]] < bound && spent <= budget
    ensures Searching(g, seeds, depths, queue, bound, truncatedBefore) && queue != [] && queue[0] == waiting[0]
    ensures queue[0] in depths && depths[queue[0]] == known[waiting[0]]
    ensures Extends(depths, known) && (depths.Keys == known.Keys ==> queue == waiting)
    ensures exceeded <==> expansions > budget
    // Each successor is charged once; of a head not finished, those tried.
    ensures spent <= expansions <= spent + |Successors(g, waiting[0])| && expansions <= budget + 1
    ensures !exceeded ==> expansions == spent + |Successors(g, waiting[0])|
    ensures Appends(known, waiting, depths, queue)
    ensures !exceeded ==> forall y :: y in Successors(g, waiting[0]) ==> y in depths
  {
    hide Searching, Universe, Successors, Appends;
    depths, queue, expansions, exceeded := known, waiting, spent, false;
    AppendsNothing(known, waiting);
    var current := waiting[0];
    var depth := known[current];
    var next := Successors(g, current);
    for i := 0 to |next|
      invariant Searching(g, seeds, depths, queue, bound, truncatedBefore)
      invariant queue != [] && queue[0] == current && current in depths && depths[current] == depth
      invariant Extends(depths, known) && (depths.Keys == known.Keys ==> queue == waiting)
      invariant forall j :: 0 <= j < i ==> next[j] in depths
      invariant expansions == spent + i <= budget && !exceeded
      invariant Appends(known, waiting, depths, queue)
    {
      SearchingQueue(g, seeds, depths, queue, bound, truncatedBefore);
      expansions := expansions + 1;
      if expansions > budget {
        exceeded := true;
        break;
      }
      if next[i] !in depths {
        DiscoverStep(g, seeds, depths, queue, bound, truncatedBefore, next[i]);
        AppendsOne(known, waiting, depths, queue, next[i], depth + 1);
        depths := depths[next[i] := depth + 1];
        queue := queue + [next[i]];
      }
    }
  }

  lemma SearchingFacts(g: Graph, seeds: seq<Action>, depths: map<Action, nat>, queue: seq<Action>, bound: int, truncated: bool)
    requires Searching(g, seeds, depths, queue, bound, truncated)
    ensures depths.Keys <= Universe(g, seeds) && Origin(seeds) <= depths.Keys && Shallow(depths, bound)
    ensures forall x :: x in queue ==> x in depths
    ensures forall x :: x in depths ==> IsDistance(g, Origin(seeds), x, depths[x])
    ensures queue == [] && bound >= 0 ==> forall x :: x in depths <==> Within(g, Origin(seeds), bound, x)
    ensures queue == [] && !truncated ==> forall x :: x in depths <==> Reachable(g, Origin(seeds), x)
    ensures queue == [] && !truncated ==> !Stopped(depths, bound)
  {
    hide IsDistance, Universe, Within, Reachable;
    if queue == [] && bound >= 0 {
      forall x
        ensures x in depths <==> Within(g, Origin(seeds), bound, x)
      {
        Exhausted(g, Origin(seeds), depths, bound, x);
      }
    }
    if queue == [] && !truncated {
      Complete(g, Origin(seeds), depths, bound);
    }
  }

  lemma SearchStarts(g: Graph, seeds: seq<Action>, depths: map<Action, nat>, bound: int)
    requires forall x :: x in depths <==> x in seeds
    requires forall x :: x in depths ==> depths[x] == 0
    ensures Searching(g, seeds, depths, seeds, bound, false)
  {
    SeedsExplored(g, seeds, depths, bound);
    hide Explored, InOrder, Shallow, Universe;
  }

  lemma TruncationLoosens(g: Graph, seeds: seq<Action>, depths: map<Action, nat>, queue: seq<Action>, bound: int, truncated: bool)
    requires Searching(g, seeds, depths, queue, bound, truncated)
    ensures Searching(g, seeds, depths, queue, bound, true)
  {
    hide Explored, InOrder, Shallow, Universe;
  }

  method BoundedReachability(g: Graph, seeds: seq<Action>, actionCount: nat, bound: int)
    returns (r: ReachabilityResult, expansions: int)
    ensures r.bound == bound && Origin(seeds) <= r.depths.Keys && Shallow(r.depths, bound)
    // Recorded depths are true distances, truncated or not.
    ensures forall x :: x in r.depths ==> IsDistance(g, Origin(seeds), x, r.depths[x])
    // Within the expansion budget, exactly the actions up to the depth bound are recorded.
    ensures expansions <= Budget(bound, actionCount) && bound >= 0 ==>
      forall x :: x in r.depths <==> Within(g, Origin(seeds), bound, x)
    // Without truncation, exactly the reachable actions are recorded.
    ensures !r.truncated ==> forall x :: x in r.depths <==> Reachable(g, Origin(seeds), x)
    // Truncation is reported exactly when the depth bound or the budget stopped the search.
    ensures r.truncated ==> Stopped(r.depths, bound) || expansions > Budget(bound, actionCount)
    ensures !r.truncated ==> !Stopped(r.depths, bound)
    ensures !r.truncated && bound >= 0 ==> expansions <= Budget(bound, actionCount)
    // With distinct seeds the search is charged at most once for every successor of a recorded action, and exactly once
    // when it is not truncated: a graph with no more edges than that never exceeds the budget.
    ensures bound >= 0 ==> expansions <= Budget(bound, actionCount) + 1
    ensures Once(seeds) ==> expansions <= EdgesOut(g, r.depths.Keys)
    ensures Once(seeds) && !r.truncated ==> expansions == EdgesOut(g, r.depths.Keys)
  {
    hide Within, IsDistance, Searching, Shallow, Origin, Universe, Reachable, Budget, Accounted, Appends, EdgesOut, Successors, Once;
    var depths: map<Action, nat> := map[];
    var queue: seq<Action> := [];
    for i := 0 to |seeds|
      invariant queue == seeds[..i]
      invariant forall x :: x in depths <==> x in seeds[..i]
      invariant forall x :: x in depths ==> depths[x] == 0
    {
      depths := depths[seeds[i] := 0];
      queue := queue + [seeds[i]];
    }
    assert seeds[..|seeds|] == seeds;
    SearchStarts(g, seeds, depths, bound);
    var budget := Budget(bound, actionCount);
    BudgetSign(bound, actionCount);
    var truncated := false;
    expansions := 0;
    ghost var expanded: set<Action> := {};
    if Once(seeds) {
      AccountStarts(g, seeds, depths);
    }
    while queue != []
      invariant Searching(g, seeds, depths, queue, bound, truncated)
      invariant expansions <= budget || bound < 0
      invariant truncated ==> Stopped(depths, bound)
      invariant Once(seeds) ==> Accounted(g, depths, queue, expanded, expansions, truncated)
      decreases |Universe(g, seeds) - depths.Keys|, |queue|
    {
      SearchingFacts(g, seeds, depths, queue, bound, truncated);
      var current := queue[0];
      var depth := depths[current];
      if depth >= bound {
        TruncationLoosens(g, seeds, depths, queue, bound, truncated);
        if Once(seeds) {
          AccountDropped(g, depths, queue, expanded, expansions, truncated);
        }
        truncated := true;
        RetireStep(g, seeds, depths, queue, bound, truncated);
        queue := queue[1..];
        continue;
      }
      ghost var known, waiting, spent := depths, queue, expansions;
      var exceeded;
      depths, queue, expansions, exceeded := ExpandHead(g, seeds, depths, queue, bound, budget, expansions, truncated);
      SearchingFacts(g, seeds, depths, queue, bound, truncated);
      if exceeded {
        if Once(seeds) {
          AccountCut(g, known, waiting, expanded, spent, truncated, depths, expansions);
        }
        return ReachabilityResult(depths, bound, true), expansions;
      }
      RetireStep(g, seeds, depths, queue, bound, truncated);
      Shrinks(Universe(g, seeds), known.Keys, depths.Keys);
      if Once(seeds) {
        AccountExpanded(g, known, waiting, expanded, spent, truncated, depths, queue, expansions);
      }
      expanded := expanded + {current};
      queue := queue[1..];
    }
    SearchingFacts(g, seeds, depths, queue, bound, truncated);
    if Once(seeds) {
      AccountEnds(g, depths, expanded, expansions, truncated);
    }
    r := ReachabilityResult(depths, bound, truncated);
  }

  lemma BudgetSign(bound: int, actionCount: nat)
    ensures bound >= 0 ==> Budget(bound, actionCount) >= 0
  {
  }

  lemma StaysBelow(depths: map<Action, nat>, queue: seq<Action>, bound: int, x: Action, d: nat)
    requires x !in depths
    ensures BelowBound(depths, queue, bound) ==> BelowBound(depths[x := d], queue + [x], bound)
  {
  }

  lemma RetiredBelow(depths: map<Action, nat>, queue: seq<Action>, bound: int)
    requires queue != [] && queue[0] in depths && depths[queue[0]] < bound
    ensures BelowBound(depths, queue, bound) ==> BelowBound(depths, queue[1..], bound)
  {
    assert forall x :: x in queue <==> x == queue[0] || x in queue[1..];
  }

  // ----- the finding

  function Unreached(actions: seq<Action>, recorded: set<Action>): seq<Action> {
    if actions == [] then []
    else
      var last := |actions| - 1;
      Unreached(actions[..last], recorded) + (if actions[last] in recorded then [] else [actions[last]])
  }

  lemma {:induction false} UnreachedMembers(actions: seq<Action>, recorded: set<Action>)
    ensures forall a :: a in Unreached(actions, recorded) <==> a in actions && a !in recorded
  {
    if actions != [] {
      UnreachedMembers(actions[..|actions| - 1], recorded);
      assert actions == actions[..|actions| - 1] + [actions[|actions| - 1]];
    }
  }

  // The actions reported as unreachable, in declaration order.
  method CheckUnreachableActions(actions: seq<Action>, r: ReachabilityResult) returns (report: seq<Action>)
    ensures report == Unreached(actions, r.ReachableActions())
  {
    report := [];
    for i := 0 to |actions|
      invariant report == Unreached(actions[..i], r.ReachableActions())
    {
      assert actions[..i + 1][..i] == actions[..i];
      if actions[i] !in r.ReachableActions() {
        report := report + [actions[i]];
      }
    }
    assert actions[..|actions|] == actions;
  }

  // A report without truncation is exact: an action is in it if and only if no path leads to it. Within the expansion
  // budget it is exact for the depth bound, truncated or not: no path of at most so many steps leads to the action.
  method AnalyzeReachability(actions: seq<Action>, available: seq<seq<Action>>, g: Graph, seeds: seq<Action>, bound: int)
    returns (report: seq<Action>, truncated: bool, expansions: int)
    requires Origin(seeds) == SeedActions(Origin(actions), available)
    ensures !truncated ==> forall a :: a in report <==> a in actions && !Reachable(g, SeedActions(Origin(actions), available), a)
    ensures expansions <= Budget(bound, |actions|) && bound >= 0 ==>
      forall a :: a in report <==> a in actions && !Within(g, SeedActions(Origin(actions), available), bound, a)
    ensures forall a :: a in report ==> a in actions && a !in SeedActions(Origin(actions), available)
  {
    hide Reachable, SeedActions, Within, IsDistance, Budget;
    var r;
    r, expansions := BoundedReachability(g, seeds, |actions|, bound);
    report := CheckUnreachableActions(actions, r);
    UnreachedMembers(actions, r.ReachableActions());
    truncated := r.truncated;
  }
}
