/** Finite directed graphs over names: paths, cycles and orders that respect every edge. The two
    plugin sorts and the lint tool's cycle finder are all specified by the predicates here. */
module Graphs {
  import opened Sorting

  type Edges = set<(string, string)>

  ghost predicate Path(edges: Edges, p: seq<string>) {
    p != [] && forall i :: 0 <= i < |p| - 1 ==> (p[i], p[i + 1]) in edges
  }

  ghost predicate Cycle(edges: Edges, p: seq<string>) {
    |p| >= 2 && Path(edges, p) && p[0] == p[|p| - 1]
  }

  ghost predicate Cyclic(edges: Edges) {
    exists p :: Cycle(edges, p)
  }

  /** Some cycle leads to `v` (its members lead to themselves). */
  ghost predicate BehindCycle(edges: Edges, v: string) {
    exists p, q :: Cycle(edges, p) && Path(edges, q) && q[0] in p && q[|q| - 1] == v
  }

  /** `r` puts the start of every edge between its members before the end. */
  ghost predicate Respects(edges: Edges, r: seq<string>) {
    forall i, j :: 0 <= i < |r| && 0 <= j < |r| && (r[i], r[j]) in edges ==> i < j
  }

  ghost predicate TopologicalOrder(nodes: seq<string>, edges: Edges, r: seq<string>) {
    multiset(r) == multiset(nodes) && Respects(edges, r)
  }

  ghost predicate Among(nodes: seq<string>, edges: Edges) {
    forall e :: e in edges ==> e.0 in nodes && e.1 in nodes
  }

  /** Every edge into `r` comes from an earlier place of `r`. */
  ghost predicate ClosedUnderPredecessors(edges: Edges, r: seq<string>) {
    forall e, j :: e in edges && 0 <= j < |r| && r[j] == e.1 ==> e.0 in r[..j]
  }

  ghost predicate Waits(nodes: seq<string>, edges: Edges, r: seq<string>, v: string) {
    exists u :: u in nodes && u !in r && (u, v) in edges
  }

  /** What is left when no more node can be released: everyone outside `r` waits for a node outside `r`. */
  ghost predicate Stuck(nodes: seq<string>, edges: Edges, r: seq<string>) {
    forall v {:trigger Waits(nodes, edges, r, v)} :: v in nodes && v !in r ==> Waits(nodes, edges, r, v)
  }

  // ---------------------------------------------------------------- paths

  lemma PathSuffix(edges: Edges, p: seq<string>, i: nat)
    requires Path(edges, p) && i < |p|
    ensures Path(edges, p[i..])
  {
  }

  lemma PathPrefix(edges: Edges, p: seq<string>, i: nat)
    requires Path(edges, p) && 0 < i <= |p|
    ensures Path(edges, p[..i])
  {
  }

  /** A path that leaves the places outside `r` never enters `r`. */
  lemma {:induction false} PathStaysOutside(edges: Edges, r: seq<string>, p: seq<string>)
    requires ClosedUnderPredecessors(edges, r) && Path(edges, p) && p[0] !in r
    ensures p[|p| - 1] !in r
  {
    if |p| > 1 {
      var e := (p[0], p[0 + 1]);
      assert e in edges;
      assert e.1 !in r by {
        assert forall j :: 0 <= j < |r| && r[j] == e.1 ==> e.0 in r[..j];
      }
      PathStaysOutside(edges, r, p[1..]);
    }
  }

  /** Walking an edge path inside `r` moves to strictly later places. */
  lemma {:induction false} PathMovesForward(edges: Edges, r: seq<string>, p: seq<string>, j: nat) returns (i: nat)
    requires ClosedUnderPredecessors(edges, r) && Path(edges, p)
    requires j < |r| && r[j] == p[|p| - 1]
    ensures i <= j && r[i] == p[0] && (|p| > 1 ==> i < j)
  {
    if |p| == 1 {
      i := j;
    } else {
      var e := (p[|p| - 2], p[|p| - 1]);
      assert e == (p[|p| - 2], p[|p| - 2 + 1]) && e in edges && r[j] == e.1;
      assert e.0 in r[..j];
      var k :| 0 <= k < j && r[..j][k] == e.0;
      i := PathMovesForward(edges, r, p[..|p| - 1], k);
    }
  }

  /** No member of a cycle is ever released. */
  lemma CycleOutside(edges: Edges, r: seq<string>, p: seq<string>)
    requires Distinct(r) && ClosedUnderPredecessors(edges, r) && Cycle(edges, p)
    ensures forall v :: v in p ==> v !in r
  {
    if p[0] in r {
      var j :| 0 <= j < |r| && r[j] == p[0];
      var i := PathMovesForward(edges, r, p, j);
      assert false;
    }
    forall v | v in p ensures v !in r {
      var k :| 0 <= k < |p| && p[k] == v;
      PathPrefix(edges, p, k + 1);
      PathStaysOutside(edges, r, p[..k + 1]);
    }
  }

  lemma PathFrom(edges: Edges, u: string, walk: seq<string>)
    requires Path(edges, walk) && (u, walk[0]) in edges
    ensures Path(edges, [u] + walk)
  {
    var longer := [u] + walk;
    forall i | 0 <= i < |longer| - 1 ensures (longer[i], longer[i + 1]) in edges {
      if i > 0 { assert longer[i] == walk[i - 1] && longer[i + 1] == walk[i - 1 + 1]; }
    }
  }

  /** Walking backwards among waiting nodes must close a cycle, which then leads to the start. */
  lemma {:induction false} WaitingIsBehindCycle(nodes: seq<string>, edges: Edges, r: seq<string>, walk: seq<string>)
    requires Stuck(nodes, edges, r) && Path(edges, walk)
    requires forall v :: v in walk ==> v in nodes && v !in r
    requires Distinct(walk)
    ensures BehindCycle(edges, walk[|walk| - 1])
    decreases (set v | v in nodes) - (set v | v in walk)
  {
    assert walk[0] in walk;
    assert Waits(nodes, edges, r, walk[0]);
    var u :| u in nodes && u !in r && (u, walk[0]) in edges;
    var longer := [u] + walk;
    PathFrom(edges, u, walk);
    if u in walk {
      var k :| 0 <= k < |walk| && walk[k] == u;
      ClosesCycle(edges, longer, k + 1);
    } else {
      hide Path, Stuck, BehindCycle, Distinct;
      LongerWalk(nodes, walk, u);
      WaitingIsBehindCycle(nodes, edges, r, longer);
    }
  }

  /** A path that returns to its start after k steps ends behind a cycle. */
  lemma ClosesCycle(edges: Edges, p: seq<string>, k: nat)
    requires Path(edges, p) && 1 <= k < |p| && p[k] == p[0]
    ensures BehindCycle(edges, p[|p| - 1])
  {
    PathPrefix(edges, p, k + 1);
    assert Cycle(edges, p[..k + 1]) && p[..k + 1][0] == p[0];
  }

  lemma LongerWalk(nodes: seq<string>, walk: seq<string>, u: string)
    requires Distinct(walk) && u in nodes && u !in walk && walk != []
    ensures var longer := [u] + walk;
      && Distinct(longer) && longer[|longer| - 1] == walk[|walk| - 1]
      && (forall v :: v in longer <==> v == u || v in walk)
      && (set v | v in nodes) - (set v | v in longer) < (set v | v in nodes) - (set v | v in walk)
  {
    hide Distinct;
    var longer := [u] + walk;
    DistinctCons(u, walk);
    FewerUnseen(nodes, walk, longer, u);
  }

  lemma DistinctCons(u: string, walk: seq<string>)
    requires Distinct(walk) && u !in walk
    ensures Distinct([u] + walk)
    ensures forall v :: v in [u] + walk <==> v == u || v in walk
  {
    var longer := [u] + walk;
    assert forall i :: 0 < i < |longer| ==> longer[i] == walk[i - 1];
  }

  lemma FewerUnseen(nodes: seq<string>, walk: seq<string>, longer: seq<string>, u: string)
    requires u in nodes && u !in walk && forall v :: v in longer <==> v == u || v in walk
    ensures (set v | v in nodes) - (set v | v in longer) < (set v | v in nodes) - (set v | v in walk)
  {
    var all, seen, seen' := set v | v in nodes, set v | v in walk, set v | v in longer;
    assert u in all - seen && u !in all - seen';
  }

  lemma BehindCycleIsWaiting(edges: Edges, r: seq<string>, v: string)
    requires Distinct(r) && ClosedUnderPredecessors(edges, r) && BehindCycle(edges, v)
    ensures v !in r
  {
    var p, q :| Cycle(edges, p) && Path(edges, q) && q[0] in p && q[|q| - 1] == v;
    CycleOutside(edges, r, p);
    PathStaysOutside(edges, r, q);
  }

  /** The nodes a sort leaves behind are exactly those some cycle leads to. */
  lemma StuckNodes(nodes: seq<string>, edges: Edges, r: seq<string>)
    requires Distinct(r) && ClosedUnderPredecessors(edges, r) && Stuck(nodes, edges, r)
    ensures forall v :: v in nodes ==> (v !in r <==> BehindCycle(edges, v))
  {
    forall v | v in nodes ensures v !in r <==> BehindCycle(edges, v) {
      if v !in r {
        WaitingIsBehindCycle(nodes, edges, r, [v]);
      } else if BehindCycle(edges, v) {
        BehindCycleIsWaiting(edges, r, v);
      }
    }
  }

  lemma CycleMembers(nodes: seq<string>, edges: Edges, p: seq<string>)
    requires Among(nodes, edges) && Cycle(edges, p)
    ensures forall v :: v in p ==> v in nodes && BehindCycle(edges, v)
  {
    forall v | v in p ensures v in nodes && BehindCycle(edges, v) {
      var k :| 0 <= k < |p| && p[k] == v;
      PathPrefix(edges, p, k + 1);
      assert Path(edges, p[..k + 1]) && p[..k + 1][0] in p && p[..k + 1][|p[..k + 1]| - 1] == v;
      if k < |p| - 1 {
        assert (p[k], p[k + 1]) in edges;
      } else {
        assert (p[k - 1], p[k - 1 + 1]) in edges;
      }
    }
  }

  /** Something is left behind exactly when there is a cycle. */
  lemma StuckIffCyclic(nodes: seq<string>, edges: Edges, r: seq<string>)
    requires Distinct(r) && Among(nodes, edges)
    requires ClosedUnderPredecessors(edges, r) && Stuck(nodes, edges, r)
    ensures (exists v :: v in nodes && v !in r) <==> Cyclic(edges)
  {
    StuckNodes(nodes, edges, r);
    if Cyclic(edges) {
      var p :| Cycle(edges, p);
      CycleMembers(nodes, edges, p);
      assert p[0] in nodes && p[0] !in r;
    }
  }

  /** A topological order exists only for graphs without cycles. */
  lemma OrderedMeansAcyclic(nodes: seq<string>, edges: Edges, r: seq<string>)
    requires Distinct(nodes) && Among(nodes, edges) && TopologicalOrder(nodes, edges, r)
    ensures !Cyclic(edges)
  {
    PermutationDistinct(nodes, r);
    MultisetMembers(nodes, r);
    forall e, j | e in edges && 0 <= j < |r| && r[j] == e.1 ensures e.0 in r[..j] {
      assert e.0 in r;
      var i :| 0 <= i < |r| && r[i] == e.0;
      assert (r[i], r[j]) in edges;
      assert r[..j][i] == e.0;
    }
    StuckIffCyclic(nodes, edges, r);
  }

  // ---------------------------------------------------------------- reversal

  ghost function Reversed(edges: Edges): (r: Edges)
    ensures forall a, b :: (a, b) in r <==> (b, a) in edges
  {
    set e | e in edges :: (e.1, e.0)
  }

  lemma ReversedCyclic(edges: Edges)
    ensures Cyclic(edges) ==> Cyclic(Reversed(edges))
  {
    if Cyclic(edges) {
      var p :| Cycle(edges, p);
      var q := seq(|p|, i requires 0 <= i < |p| => p[|p| - 1 - i]);
      forall i | 0 <= i < |q| - 1 ensures (q[i], q[i + 1]) in Reversed(edges) {
        var k := |p| - 2 - i;
        assert (p[k], p[k + 1]) in edges;
      }
      assert Cycle(Reversed(edges), q);
    }
  }
}
