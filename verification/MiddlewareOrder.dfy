/** Which of the orders that respect the constraints the middleware sort returns. */
module MiddlewareOrder {
  import opened Sorting
  import opened Graphs
  import opened PluginOrder

  /** The place in `r` of the last name that must run before `v`, or -1. */
  ghost function Release(edges: Edges, r: seq<string>, v: string): (k: int)
    ensures -1 <= k < |r|
    ensures k >= 0 ==> (r[k], v) in edges
    ensures forall l :: k < l < |r| ==> (r[l], v) !in edges
  {
    if r == [] then -1
    else
      var n := |r| - 1;
      if (r[n], v) in edges then n else Release(edges, r[..n], v)
  }

  ghost predicate ReleasedBefore(edges: Edges, r: seq<string>, u: string, v: string) {
    Release(edges, r, u) < Release(edges, r, v) || (Release(edges, r, u) == Release(edges, r, v) && StringLe(u, v))
  }

  /** `seen` lists names as they are released by `r`, and those released together alphabetically. */
  ghost predicate ByRelease(edges: Edges, r: seq<string>, seen: seq<string>) {
    forall i, j :: 0 <= i < j < |seen| ==> ReleasedBefore(edges, r, seen[i], seen[j])
  }

  // ---------------------------------------------------------------- what the queue loop keeps

  lemma ReleaseNext(edges: Edges, r: seq<string>, x: string, v: string)
    ensures Release(edges, r + [x], v) == if (x, v) in edges then |r| else Release(edges, r, v)
  {
    assert (r + [x])[..|r|] == r;
  }

  lemma {:induction false} NewlyZeroSorted(inDegree: map<string, int>, succs: seq<string>)
    requires SortedBy(StringLe, succs) && forall v :: v in succs ==> v in inDegree
    ensures SortedBy(StringLe, NewlyZero(inDegree, succs))
    ensures forall v :: v in NewlyZero(inDegree, succs) ==> v in succs
  {
    if succs != [] {
      var init, last := succs[..|succs| - 1], succs[|succs| - 1];
      assert succs == init + [last];
      NewlyZeroSorted(inDegree, init);
      assert forall v :: v in init ==> StringLe(v, last);
    }
  }

  lemma QueueStart(edges: Edges, queue: seq<string>)
    requires SortedBy(StringLe, queue)
    ensures ByRelease(edges, [], [] + queue)
  {
    assert [] + queue == queue;
  }

  /** Names seen so far have all their predecessors placed, so the name placed next releases none of them. */
  lemma SeenNotReleased(names: seq<string>, edges: Edges, successors: map<string, seq<string>>,
                        inDegree: map<string, int>, queue: seq<string>, result: seq<string>, v: string)
    requires queue != [] && KahnState(names, edges, successors, inDegree, queue, result) && v in result + queue
    ensures queue[0] !in result && (queue[0], v) !in edges
  {
    hide KahnState, Links, Targets, Seen;
    PlacedOnce(names, edges, successors, inDegree, queue, result);
    var e := (queue[0], v);
    if v in queue {
      QueueIsReady(names, edges, successors, inDegree, queue, result);
      assert Ready(names, edges, result, v);
      assert e in edges ==> e.0 in result;
    } else {
      PlacedClosed(names, edges, successors, inDegree, queue, result);
      var j :| 0 <= j < |result| && result[j] == v;
      var earlier := result[..j];
      assert e in edges ==> e.0 in earlier;
    }
  }

  lemma PlacedOnce(names: seq<string>, edges: Edges, successors: map<string, seq<string>>,
                   inDegree: map<string, int>, queue: seq<string>, result: seq<string>)
    requires queue != [] && KahnState(names, edges, successors, inDegree, queue, result)
    ensures queue[0] !in result
  {
    hide Links, Targets, Distinct;
    DistinctParts(result, queue);
    assert queue[0] in queue;
  }

  lemma PlacedClosed(names: seq<string>, edges: Edges, successors: map<string, seq<string>>,
                     inDegree: map<string, int>, queue: seq<string>, result: seq<string>)
    requires KahnState(names, edges, successors, inDegree, queue, result)
    ensures ClosedUnderPredecessors(edges, result)
  {
  }

  lemma ReleasedNow(names: seq<string>, edges: Edges, successors: map<string, seq<string>>,
                    inDegree: map<string, int>, queue: seq<string>, result: seq<string>, v: string)
    requires KahnState(names, edges, successors, inDegree, queue, result) && queue != []
    requires queue[0] in successors && v in successors[queue[0]]
    ensures (queue[0], v) in edges
  {
    hide Targets, Seen, ClosedUnderPredecessors;
    assert queue[0] in names;
  }

  lemma ReleaseStep(names: seq<string>, edges: Edges, successors: map<string, seq<string>>,
                    inDegree: map<string, int>, queue: seq<string>, result: seq<string>, newlyZero: seq<string>)
    requires queue != [] && KahnState(names, edges, successors, inDegree, queue, result) && queue[0] in successors
    requires ByRelease(edges, result, result + queue)
    requires SortedBy(StringLe, newlyZero) && forall v :: v in newlyZero ==> v in successors[queue[0]]
    ensures ByRelease(edges, result + [queue[0]], result + [queue[0]] + (queue[1..] + newlyZero))
  {
    hide KahnState, Release;
    var placed, seen := result + [queue[0]], result + queue;
    var all := seen + newlyZero;
    assert placed + (queue[1..] + newlyZero) == all;
    forall v | v in seen ensures Release(edges, placed, v) == Release(edges, result, v) {
      SeenNotReleased(names, edges, successors, inDegree, queue, result, v);
      ReleaseNext(edges, result, queue[0], v);
    }
    forall v | v in newlyZero ensures Release(edges, placed, v) == |result| {
      ReleasedNow(names, edges, successors, inDegree, queue, result, v);
      ReleaseNext(edges, result, queue[0], v);
    }
    forall i, j | 0 <= i < j < |all| ensures ReleasedBefore(edges, placed, all[i], all[j]) {
      assert i < |seen| ==> all[i] == seen[i] && seen[i] in seen;
      assert j < |seen| ==> all[j] == seen[j] && seen[j] in seen;
      assert j >= |seen| ==> all[j] == newlyZero[j - |seen|] && newlyZero[j - |seen|] in newlyZero;
      assert i >= |seen| ==> all[i] == newlyZero[i - |seen|] && newlyZero[i - |seen|] in newlyZero;
      assert ByRelease(edges, result, seen);
    }
  }

  /** The loop's order from here on lists names as they are released. */
  lemma {:induction false} LoopByRelease(names: seq<string>, edges: Edges, successors: map<string, seq<string>>,
                                         inDegree: map<string, int>, queue: seq<string>, result: seq<string>)
    requires Distinct(names) && Wired(successors, inDegree, queue)
    requires SortLoop(names, edges, successors, inDegree, queue, result) && ByRelease(edges, result, result + queue)
    ensures var order := result + Order(successors, inDegree, queue); ByRelease(edges, order, order)
    decreases |queue| + |Positive(inDegree)|
  {
    hide SortLoop, Wired, Sort, NewlyZero, Order, ByRelease, KahnState, Distinct, SortedBy, StringLe, Decremented, Positive;
    if queue == [] {
      OrderEnd(successors, inDegree, result);
      assert result + [] == result;
    } else {
      WiredKeys(successors, inDegree, queue);
      OrderNext(successors, inDegree, queue, result);
      var succs := Sort(StringLe, successors[queue[0]]);
      WiredNext(successors, inDegree, queue, succs);
      var next, newlyZero := Decremented(inDegree, succs), NewlyZero(inDegree, succs);
      SortLoopStep(names, edges, successors, inDegree, queue, result, next, newlyZero);
      StringOrder();
      SortSorts(StringLe, successors[queue[0]]);
      NewlyZeroSorted(inDegree, succs);
      MultisetMembers(succs, successors[queue[0]]);
      LoopIsKahn(names, edges, successors, inDegree, queue, result);
      ReleaseStep(names, edges, successors, inDegree, queue, result, newlyZero);
      LoopByRelease(names, edges, successors, next, queue[1..] + newlyZero, result + [queue[0]]);
    }
  }

  lemma LoopIsKahn(names: seq<string>, edges: Edges, successors: map<string, seq<string>>,
                   inDegree: map<string, int>, queue: seq<string>, result: seq<string>)
    requires Distinct(names) && SortLoop(names, edges, successors, inDegree, queue, result)
    ensures KahnState(names, edges, successors, inDegree, queue, result)
  {
  }

  /** The order returned for distinct names lists them as they are released: each name by the last of those
      that must run before it, and names released together, those nothing leads to included, alphabetically. */
  lemma ArrangedByRelease(names: seq<string>, constraints: map<string, Ordering>)
    requires Distinct(names) && forall n :: n in names ==> n in constraints
    ensures var edges, r := ConstraintEdges(names, constraints), Arranged(names, constraints);
      r.Sorted? ==> TopologicalOrder(names, edges, r.order) && ByRelease(edges, r.order, r.order)
  {
    hide SortLoop, Wired, Counted, Roots, Successors, Degrees, Order, Sort, NewlyZero, ConstraintEdges, Nodes, ByRelease, StringLe,
      SortedBy, Distinct, TopologicalOrder;
    var edges, successors := ConstraintEdges(names, constraints), Successors(names, constraints, names);
    AllWired(names, constraints);
    GraphCounted(names, constraints);
    var inDegree := Degrees(names, successors);
    var queue := Sort(StringLe, Roots(names, inDegree));
    SortLoopInit(names, edges, successors, inDegree, queue);
    StringOrder();
    SortSorts(StringLe, Roots(names, inDegree));
    QueueStart(edges, queue);
    LoopByRelease(names, edges, successors, inDegree, queue, []);
    assert [] + Order(successors, inDegree, queue) == Order(successors, inDegree, queue);
    ArrangedOutcome(names, constraints);
  }

  // ---------------------------------------------------------------- there is only one such order

  lemma {:induction false} SamePrefix(edges: Edges, r: seq<string>, q: seq<string>, n: nat)
    requires Distinct(r) && multiset(r) == multiset(q) && Respects(edges, r) && Respects(edges, q)
    requires ByRelease(edges, r, r) && ByRelease(edges, q, q)
    requires n <= |r| == |q|
    ensures r[..n] == q[..n]
  {
    if n > 0 {
      SamePrefix(edges, r, q, n - 1);
      SameNext(edges, r, q, n - 1);
      assert r[..n] == r[..n - 1] + [r[n - 1]] && q[..n] == q[..n - 1] + [q[n - 1]];
    }
  }

  lemma SameNext(edges: Edges, r: seq<string>, q: seq<string>, i: nat)
    requires Distinct(r) && multiset(r) == multiset(q) && Respects(edges, r) && Respects(edges, q)
    requires ByRelease(edges, r, r) && ByRelease(edges, q, q)
    requires i < |r| == |q| && r[..i] == q[..i]
    ensures r[i] == q[i]
  {
    hide ByRelease, Respects;
    if r[i] != q[i] {
      LaterIn(r, q, i);
      PermutationDistinct(r, q);
      LaterIn(q, r, i);
      var j :| i < j < |q| && q[j] == r[i];
      var k :| i < k < |r| && r[k] == q[i];
      KeysByPlace(edges, r, i, k);
      KeysByPlace(edges, q, i, j);
      SameKey(edges, r, q, i, r[i], i, j);
      SameKey(edges, r, q, i, q[i], k, i);
      StringLeTotal(r[i], q[i]);
    }
  }

  lemma LaterIn(r: seq<string>, q: seq<string>, i: nat)
    requires Distinct(r) && multiset(r) == multiset(q) && i < |r| == |q| && r[..i] == q[..i] && r[i] != q[i]
    ensures exists j :: i < j < |q| && q[j] == r[i]
  {
    MultisetMembers(r, q);
    assert r[i] in q;
    var j :| 0 <= j < |q| && q[j] == r[i];
    assert forall l :: 0 <= l < i ==> q[l] == r[..i][l];
  }

  lemma KeysByPlace(edges: Edges, r: seq<string>, i: nat, k: nat)
    requires ByRelease(edges, r, r) && i < k < |r|
    ensures ReleasedBefore(edges, r, r[i], r[k])
  {
  }

  /** The release of a name that stands at `i` in one of two orders that agree up to `i`. */
  lemma SameKey(edges: Edges, r: seq<string>, q: seq<string>, i: nat, v: string, a: nat, b: nat)
    requires Respects(edges, r) && Respects(edges, q) && multiset(r) == multiset(q) && Distinct(r) && Distinct(q)
    requires i < |r| == |q| && r[..i] == q[..i] && a < |r| && b < |q| && r[a] == v == q[b] && (a == i || b == i)
    ensures Release(edges, r, v) == Release(edges, q, v)
  {
    assert forall l :: 0 <= l < i ==> r[l] == r[..i][l] && q[l] == q[..i][l];
    if a == i {
      ReleaseUpTo(edges, r, i, v);
      PredecessorsUpTo(edges, r, q, i, v, a);
      ReleaseUpTo(edges, q, i, v);
    } else {
      ReleaseUpTo(edges, q, i, v);
      PredecessorsUpTo(edges, q, r, i, v, b);
      ReleaseUpTo(edges, r, i, v);
    }
  }

  /** If `v` stands at `i` in one order, no name after `i` in the other must run before it. */
  lemma PredecessorsUpTo(edges: Edges, r: seq<string>, q: seq<string>, i: nat, v: string, a: nat)
    requires Respects(edges, r) && multiset(r) == multiset(q) && Distinct(q)
    requires i < |r| == |q| && r[..i] == q[..i] && a == i && r[a] == v
    ensures forall l :: i <= l < |r| ==> (r[l], v) !in edges
    ensures forall l :: i <= l < |q| ==> (q[l], v) !in edges
  {
    MultisetMembers(r, q);
    assert forall k :: 0 <= k < i ==> q[k] == q[..i][k] && r[k] == r[..i][k];
    forall l | i <= l < |q| ensures (q[l], v) !in edges {
      assert q[l] in r;
      var k :| 0 <= k < |r| && r[k] == q[l];
      assert k >= i;
    }
  }

  lemma ReleaseUpTo(edges: Edges, r: seq<string>, i: nat, v: string)
    requires i <= |r|
    ensures (forall l :: i <= l < |r| ==> (r[l], v) !in edges) ==> Release(edges, r, v) == Release(edges, r[..i], v)
  {
  }

  /** At most one order respects the constraints and lists names as they are released. */
  lemma OneOrder(names: seq<string>, edges: Edges, r: seq<string>, q: seq<string>)
    requires Distinct(names) && TopologicalOrder(names, edges, r) && TopologicalOrder(names, edges, q)
    requires ByRelease(edges, r, r) && ByRelease(edges, q, q)
    ensures r == q
  {
    hide ByRelease, Respects;
    PermutationDistinct(names, r);
    assert |multiset(r)| == |r| && |multiset(q)| == |q|;
    SamePrefix(edges, r, q, |r|);
    assert r == r[..|r|] && q == q[..|q|];
  }

  /** Listing the same names in another order changes nothing but the order of the names in a report. */
  lemma ListingOrderIrrelevant(names: seq<string>, names': seq<string>, constraints: map<string, Ordering>)
    requires Distinct(names) && multiset(names) == multiset(names') && forall n :: n in names ==> n in constraints
    ensures forall n :: n in names' ==> n in constraints
    ensures var r, r' := Arranged(names, constraints), Arranged(names', constraints);
      && (r.Sorted? ==> r' == r)
      && (r.CycleAmong? ==> r'.CycleAmong? && multiset(r.members) == multiset(r'.members))
  {
    hide ByRelease, Arranged, ConstraintEdges, Distinct, TopologicalOrder, Cyclic, BehindCycle, RepeatedAreFree, MostKept, Filter;
    MultisetMembers(names, names');
    PermutationDistinct(names, names');
    var r, r', edges := Arranged(names, constraints), Arranged(names', constraints), ConstraintEdges(names, constraints);
    SameEdges(names, names', constraints);
    ArrangedOutcome(names, constraints);
    ArrangedOutcome(names', constraints);
    ArrangedByRelease(names, constraints);
    ArrangedByRelease(names', constraints);
    if r.Sorted? {
      SameNodes(names, names', edges, r'.order);
      OneOrder(names, edges, r.order, r'.order);
    } else {
      SameBag(n => BehindCycle(edges, n), names, names');
    }
  }

  lemma SameEdges(names: seq<string>, names': seq<string>, constraints: map<string, Ordering>)
    requires forall n :: n in names <==> n in names'
    ensures ConstraintEdges(names, constraints) == ConstraintEdges(names', constraints)
  {
    hide Declares;
  }

  lemma SameNodes(names: seq<string>, names': seq<string>, edges: Edges, order: seq<string>)
    requires multiset(names) == multiset(names') && TopologicalOrder(names', edges, order)
    ensures TopologicalOrder(names, edges, order)
  {
  }

  lemma SameBag(p: string -> bool, names: seq<string>, names': seq<string>)
    requires multiset(names) == multiset(names')
    ensures multiset(Filter(p, names)) == multiset(Filter(p, names'))
  {
    hide Filter;
    forall x ensures multiset(Filter(p, names))[x] == multiset(Filter(p, names'))[x] {
      FilterMultiplicity(p, names, x);
      FilterMultiplicity(p, names', x);
    }
  }

  /** The names no constraint leads to come first, alphabetically. */
  lemma FreeNamesFirst(names: seq<string>, constraints: map<string, Ordering>)
    requires Distinct(names) && forall n :: n in names ==> n in constraints
    ensures var edges, r := ConstraintEdges(names, constraints), Arranged(names, constraints);
      r.Sorted? ==> forall i, j :: 0 <= i < j < |r.order| && Free(edges, r.order[j]) ==>
        Free(edges, r.order[i]) && StringLe(r.order[i], r.order[j])
  {
    hide Arranged, ConstraintEdges, Distinct, ByRelease, StringLe, Respects;
    var edges, r := ConstraintEdges(names, constraints), Arranged(names, constraints);
    ArrangedByRelease(names, constraints);
    if r.Sorted? {
      MultisetMembers(names, r.order);
      forall v | v in r.order ensures Free(edges, v) <==> Release(edges, r.order, v) == -1 {
        FreeIsUnreleased(names, edges, r.order, v);
      }
      forall i, j | 0 <= i < j < |r.order| && Free(edges, r.order[j])
        ensures Free(edges, r.order[i]) && StringLe(r.order[i], r.order[j])
      {
        KeysByPlace(edges, r.order, i, j);
        assert r.order[i] in r.order && r.order[j] in r.order;
      }
    }
  }

  lemma FreeIsUnreleased(names: seq<string>, edges: Edges, order: seq<string>, v: string)
    requires Among(names, edges) && forall n :: n in names <==> n in order
    ensures Free(edges, v) <==> Release(edges, order, v) == -1
  {
    if !Free(edges, v) {
      var e :| e in edges && e.1 == v;
      var i :| 0 <= i < |order| && order[i] == e.0;
      assert (order[i], v) in edges;
    }
  }

  /** Without constraints the names come out sorted. */
  lemma Unconstrained(names: seq<string>, constraints: map<string, Ordering>)
    requires Distinct(names) && forall n :: n in names ==> n in constraints
    requires forall a, b :: a in names && b in names ==> b !in constraints[a].mustRunBefore && a !in constraints[b].mustRunAfter
    ensures var r := Arranged(names, constraints);
      r.Sorted? && multiset(r.order) == multiset(names) && forall i, j :: 0 <= i < j < |r.order| ==> StringLe(r.order[i], r.order[j])
  {
    hide Arranged, Distinct, StringLe, MostKept, RepeatedAreFree;
    var edges, r := ConstraintEdges(names, constraints), Arranged(names, constraints);
    NoEdges(names, constraints);
    NoCycle(edges);
    ArrangedOutcome(names, constraints);
    FreeNamesFirst(names, constraints);
    assert forall v :: Free(edges, v);
  }

  lemma NoEdges(names: seq<string>, constraints: map<string, Ordering>)
    requires forall n :: n in names ==> n in constraints
    requires forall a, b :: a in names && b in names ==> b !in constraints[a].mustRunBefore && a !in constraints[b].mustRunAfter
    ensures ConstraintEdges(names, constraints) == {}
  {
    var edges := ConstraintEdges(names, constraints);
    forall e ensures e !in edges {
      assert e == (e.0, e.1);
      assert (e.0, e.1) in edges <==> e.0 in names && e.1 in names && Declares(constraints, e.0, e.1);
    }
  }

  lemma NoCycle(edges: Edges)
    requires edges == {}
    ensures !Cyclic(edges)
  {
    forall p ensures !Cycle(edges, p) {
      if Cycle(edges, p) {
        FirstAndLastEdge(edges, p);
      }
    }
  }
}
