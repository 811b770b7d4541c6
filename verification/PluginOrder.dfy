/** Middleware ordering: the two Kahn sorts over must_run_before / must_run_after constraints. */
module PluginOrder {
  import opened Sorting
  import opened Graphs

  /** The ordering attributes of a middleware instance or of a plugin manifest. */
  datatype Ordering = Ordering(mustRunBefore: seq<string>, mustRunAfter: seq<string>)

  /** A middleware unit: its name in the chain and its constraints. */
  datatype Middleware = Middleware(name: string, ordering: Ordering)

  datatype SortResult = Sorted(order: seq<string>) | CycleAmong(members: seq<string>)

  /** `a` must run before `b`, by either party's declaration. */
  predicate Declares(constraints: map<string, Ordering>, a: string, b: string) {
    || (a in constraints && b in constraints[a].mustRunBefore)
    || (b in constraints && a in constraints[b].mustRunAfter)
  }

  /** The constraints among `names`; constraints on anybody else are ignored. */
  ghost function ConstraintEdges(names: seq<string>, constraints: map<string, Ordering>): (e: Edges)
    ensures Among(names, e)
    ensures forall a, b :: (a, b) in e <==> (a in names && b in names && Declares(constraints, a, b))
  {
    set a, b | a in names && b in names && Declares(constraints, a, b) :: (a, b)
  }

  // ---------------------------------------------------------------- counting edges

  /** The targets, with multiplicity, of the edges that leave a name outside `finished`. */
  ghost function Targets(names: seq<string>, successors: map<string, seq<string>>, finished: seq<string>): multiset<string>
    requires forall n :: n in names ==> n in successors
  {
    if names == [] then
      multiset{}
    else
      (if names[0] in finished then multiset{} else multiset(successors[names[0]]))
      + Targets(names[1..], successors, finished)
  }

  lemma {:induction false} TargetsUnchanged(names: seq<string>, s: map<string, seq<string>>, t: map<string, seq<string>>,
                          finished: seq<string>, finished': seq<string>)
    requires forall n :: n in names ==> n in s && n in t && s[n] == t[n]
    requires forall n :: n in names ==> (n in finished <==> n in finished')
    ensures Targets(names, s, finished) == Targets(names, t, finished')
  {
    if names != [] {
      assert names[0] in names;
      assert forall n :: n in names[1..] ==> n in names;
      TargetsUnchanged(names[1..], s, t, finished, finished');
    }
  }

  lemma {:induction false} AddTarget(names: seq<string>, s: map<string, seq<string>>, finished: seq<string>, a: string, b: string)
    requires Distinct(names) && a in names && a !in finished
    requires forall n :: n in names ==> n in s
    ensures Targets(names, s[a := s[a] + [b]], finished) == Targets(names, s, finished) + multiset{b}
  {
    var t := s[a := s[a] + [b]];
    if names[0] == a {
      assert a !in names[1..];
      TargetsUnchanged(names[1..], s, t, finished, finished);
    } else {
      AddTarget(names[1..], s, finished, a, b);
    }
  }

  lemma {:induction false} FinishTargets(names: seq<string>, s: map<string, seq<string>>, finished: seq<string>, a: string)
    requires Distinct(names) && a in names && a !in finished
    requires forall n :: n in names ==> n in s
    ensures Targets(names, s, finished) == Targets(names, s, finished + [a]) + multiset(s[a])
  {
    if names[0] == a {
      assert a !in names[1..];
      TargetsUnchanged(names[1..], s, s, finished, finished + [a]);
    } else {
      FinishTargets(names[1..], s, finished, a);
    }
  }

  lemma {:induction false} TargetsMembers(names: seq<string>, s: map<string, seq<string>>, finished: seq<string>, v: string)
    requires forall n :: n in names ==> n in s
    ensures v in Targets(names, s, finished) <==> exists u :: u in names && u !in finished && v in s[u]
  {
    if names != [] {
      TargetsMembers(names[1..], s, finished, v);
      assert forall u :: u in names <==> u == names[0] || u in names[1..];
    }
  }

  // ---------------------------------------------------------------- building the graph

  ghost predicate Links(names: seq<string>, successors: map<string, seq<string>>, edges: Edges) {
    && successors.Keys == (set n | n in names)
    && Among(names, edges)
    && (forall e :: e in edges ==> e.1 in successors[e.0])
    && (forall a, b {:trigger b in successors[a]} :: a in names && b in successors[a] ==> (a, b) in edges)
  }

  /** `successors` records the edges `edges`, and `inDegree` counts them, repeated declarations included. */
  ghost predicate Counted(names: seq<string>, successors: map<string, seq<string>>, inDegree: map<string, int>, edges: Edges) {
    && Links(names, successors, edges)
    && inDegree.Keys == successors.Keys
    && (forall v :: v in names ==> inDegree[v] == Targets(names, successors, [])[v])
  }

  lemma RecordLink(names: seq<string>, successors: map<string, seq<string>>, edges: Edges, a: string, b: string)
    requires Links(names, successors, edges) && a in names && b in names
    ensures a in successors && Links(names, successors[a := successors[a] + [b]], edges + {(a, b)})
  {
    var s := successors[a := successors[a] + [b]];
    assert s.Keys == successors.Keys;
    assert forall y :: y in successors[a] + [b] <==> y in successors[a] || y == b;
    forall e | e in edges + {(a, b)} ensures e.0 in names && e.1 in names && e.1 in s[e.0] {
      if e != (a, b) {
        assert e.1 in successors[e.0];
      }
    }
    forall x, y | x in names && y in s[x] ensures (x, y) in edges + {(a, b)} {
      if y in successors[x] {
        assert (x, y) in edges;
      }
    }
  }

  lemma RecordEdge(names: seq<string>, successors: map<string, seq<string>>, inDegree: map<string, int>,
                   edges: Edges, a: string, b: string)
    requires Distinct(names) && Counted(names, successors, inDegree, edges) && a in names && b in names
    ensures a in successors && b in inDegree
    ensures Counted(names, successors[a := successors[a] + [b]], inDegree[b := inDegree[b] + 1], edges + {(a, b)})
  {
    hide Distinct, Targets;
    RecordLink(names, successors, edges, a, b);
    AddTarget(names, successors, [], a, b);
    assert inDegree[b := inDegree[b] + 1].Keys == inDegree.Keys;
    hide Links;
  }

  ghost function OutEdges(names: seq<string>, name: string, before: seq<string>): (e: Edges)
    ensures forall a, b :: (a, b) in e <==> a == name && b in before && b in names
  {
    set b | b in before && b in names :: (name, b)
  }

  ghost function InEdges(names: seq<string>, name: string, after: seq<string>): (e: Edges)
    ensures forall a, b :: (a, b) in e <==> b == name && a in after && a in names
  {
    set a | a in after && a in names :: (a, name)
  }

  lemma OutEdgesStep(names: seq<string>, name: string, before: seq<string>, j: nat, edges: Edges)
    requires j < |before|
    ensures edges + OutEdges(names, name, before[..j + 1]) ==
      if before[j] in names then edges + OutEdges(names, name, before[..j]) + {(name, before[j])}
      else edges + OutEdges(names, name, before[..j])
  {
    assert before[..j + 1] == before[..j] + [before[j]];
  }

  lemma InEdgesStep(names: seq<string>, name: string, after: seq<string>, j: nat, edges: Edges)
    requires j < |after|
    ensures edges + InEdges(names, name, after[..j + 1]) ==
      if after[j] in names then edges + InEdges(names, name, after[..j]) + {(after[j], name)}
      else edges + InEdges(names, name, after[..j])
  {
    assert after[..j + 1] == after[..j] + [after[j]];
  }

  lemma NoEdgesYet(names: seq<string>, name: string, edges: Edges)
    ensures edges + OutEdges(names, name, []) == edges
    ensures edges + InEdges(names, name, []) == edges
  {
  }

  /** The names without repetition, by first occurrence. */
  ghost function Nodes(names: seq<string>): (r: seq<string>)
    ensures Distinct(r) && (forall x :: x in r <==> x in names)
    ensures Distinct(names) ==> r == names
  {
    if names == [] then []
    else
      var init, last := names[..|names| - 1], names[|names| - 1];
      assert names == init + [last];
      if last in init then Nodes(init) else Nodes(init) + [last]
  }

  function Repeat(name: string, n: nat): seq<string> {
    seq(n, _ => name)
  }

  /** The successor list of `u` after the constraints declared by the names of `part`: a name that is listed
      twice declares its own twice. */
  function SuccessorsOf(names: seq<string>, constraints: map<string, Ordering>, part: seq<string>, u: string): seq<string>
    requires forall n :: n in part ==> n in constraints
  {
    if part == [] then []
    else
      var last := part[|part| - 1];
      SuccessorsOf(names, constraints, part[..|part| - 1], u)
      + (if u == last then Filter(b => b in names, constraints[last].mustRunBefore) else [])
      + Repeat(last, multiset(constraints[last].mustRunAfter)[u])
  }

  function Successors(names: seq<string>, constraints: map<string, Ordering>, part: seq<string>): map<string, seq<string>>
    requires forall n :: n in part ==> n in constraints
  {
    map u | u in names :: SuccessorsOf(names, constraints, part, u)
  }

  lemma OneMoreName(names: seq<string>, constraints: map<string, Ordering>, i: nat, u: string)
    requires i < |names| && forall n :: n in names ==> n in constraints
    ensures var name := names[i];
      var list := SuccessorsOf(names, constraints, names[..i], u);
      SuccessorsOf(names, constraints, names[..i + 1], u) ==
        (if u == name then list + Filter(b => b in names, constraints[name].mustRunBefore) else list)
        + Repeat(name, multiset(constraints[name].mustRunAfter)[u])
  {
    hide Filter, Repeat;
    assert names[..i + 1][..i] == names[..i] && names[..i + 1][i] == names[i];
    NothingAdded(SuccessorsOf(names, constraints, names[..i], u));
  }

  lemma NoSuccessors(names: seq<string>, constraints: map<string, Ordering>)
    ensures Successors(names, constraints, names[..0]) == map u | u in names :: []
  {
  }

  lemma SuccessorsNext(names: seq<string>, constraints: map<string, Ordering>, i: nat,
                       recorded: map<string, seq<string>>, recorded': map<string, seq<string>>)
    requires i < |names| && forall n :: n in names ==> n in constraints
    requires var name := names[i];
      recorded == Successors(names, constraints, names[..i])[name :=
        Successors(names, constraints, names[..i])[name] + Filter(b => b in names, constraints[name].mustRunBefore)]
    requires Appended(recorded, recorded', names[i], constraints[names[i]].mustRunAfter)
    ensures recorded' == Successors(names, constraints, names[..i + 1])
  {
    hide Filter, Repeat;
    var next := Successors(names, constraints, names[..i + 1]);
    assert recorded'.Keys == next.Keys;
    forall u | u in next ensures recorded'[u] == next[u] {
      OneMoreName(names, constraints, i, u);
    }
  }

  lemma RepeatNext(list: seq<string>, name: string, after: seq<string>, j: nat, u: string)
    requires j < |after|
    ensures list + Repeat(name, multiset(after[..j + 1])[u])
         == if u == after[j] then list + Repeat(name, multiset(after[..j])[u]) + [name] else list + Repeat(name, multiset(after[..j])[u])
  {
    assert after[..j + 1] == after[..j] + [after[j]];
  }

  lemma OneMore(successors: map<string, seq<string>>, name: string, list: seq<string>, target: string)
    requires name in successors
    ensures successors[name := successors[name] + list][name := successors[name] + list + [target]]
         == successors[name := successors[name] + (list + [target])]
  {
    assert successors[name] + list + [target] == successors[name] + (list + [target]);
  }

  lemma NothingAdded(list: seq<string>)
    ensures list + [] == list
  {
  }

  /** `name` was appended to the list of each name once for every time that name occurs in `after`. */
  ghost predicate Appended(successors0: map<string, seq<string>>, successors: map<string, seq<string>>, name: string, after: seq<string>) {
    && successors.Keys == successors0.Keys
    && forall u :: u in successors ==> successors[u] == successors0[u] + Repeat(name, multiset(after)[u])
  }

  lemma NothingAppended(successors: map<string, seq<string>>, name: string)
    ensures Appended(successors, successors, name, [])
  {
    forall u | u in successors ensures Repeat(name, multiset([])[u]) == [] {
    }
  }

  lemma AppendedNext(successors0: map<string, seq<string>>, successors: map<string, seq<string>>, name: string, after: seq<string>, j: nat)
    requires j < |after| && Appended(successors0, successors, name, after[..j])
    ensures Appended(successors0, if after[j] in successors then successors[after[j] := successors[after[j]] + [name]] else successors,
                     name, after[..j + 1])
  {
    hide Repeat;
    forall u | u in successors
      ensures successors0[u] + Repeat(name, multiset(after[..j + 1])[u]) == if u == after[j] then successors[u] + [name] else successors[u]
    {
      RepeatNext(successors0[u], name, after, j, u);
    }
  }

  lemma CountedKeys(names: seq<string>, successors: map<string, seq<string>>, inDegree: map<string, int>, edges: Edges)
    requires Counted(Nodes(names), successors, inDegree, edges)
    ensures forall n :: n in names <==> n in successors
    ensures inDegree.Keys == successors.Keys
  {
    hide Nodes;
  }

  method RecordBefore(names: seq<string>, name: string, before: seq<string>,
                      inDegree0: map<string, int>, successors0: map<string, seq<string>>, ghost edges: Edges)
    returns (inDegree: map<string, int>, successors: map<string, seq<string>>)
    requires name in names && Counted(Nodes(names), successors0, inDegree0, edges)
    ensures Counted(Nodes(names), successors, inDegree, edges + OutEdges(names, name, before))
    ensures name in successors0 && successors == successors0[name := successors0[name] + Filter(b => b in names, before)]
  {
    hide Nodes, Filter, Counted, OutEdges;
    inDegree, successors := inDegree0, successors0;
    CountedKeys(names, successors, inDegree, edges);
    NoEdgesYet(names, name, edges);
    FilterEmpty(b => b in names);
    NothingAdded(successors0[name]);
    assert before[..0] == [] && successors == successors0[name := successors0[name]];
    for j := 0 to |before|
      invariant Counted(Nodes(names), successors, inDegree, edges + OutEdges(names, name, before[..j]))
      invariant successors == successors0[name := successors0[name] + Filter(b => b in names, before[..j])]
    {
      var target := before[j];
      CountedKeys(names, successors, inDegree, edges + OutEdges(names, name, before[..j]));
      OutEdgesStep(names, name, before, j, edges);
      FilterNext(b => b in names, before, j);
      if target in names {
        RecordEdge(Nodes(names), successors, inDegree, edges + OutEdges(names, name, before[..j]), name, target);
        OneMore(successors0, name, Filter(b => b in names, before[..j]), target);
        successors := successors[name := successors[name] + [target]];
        inDegree := inDegree[target := inDegree[target] + 1];
      }
    }
    assert before[..|before|] == before;
  }

  method RecordAfter(names: seq<string>, name: string, after: seq<string>,
                     inDegree0: map<string, int>, successors0: map<string, seq<string>>, ghost edges: Edges)
    returns (inDegree: map<string, int>, successors: map<string, seq<string>>)
    requires name in names && Counted(Nodes(names), successors0, inDegree0, edges)
    ensures Counted(Nodes(names), successors, inDegree, edges + InEdges(names, name, after))
    ensures Appended(successors0, successors, name, after)
  {
    hide Nodes, Counted, InEdges, Appended;
    inDegree, successors := inDegree0, successors0;
    CountedKeys(names, successors, inDegree, edges);
    NoEdgesYet(names, name, edges);
    assert after[..0] == [];
    NothingAppended(successors, name);
    for j := 0 to |after|
      invariant Counted(Nodes(names), successors, inDegree, edges + InEdges(names, name, after[..j]))
      invariant Appended(successors0, successors, name, after[..j])
    {
      var source := after[j];
      CountedKeys(names, successors, inDegree, edges + InEdges(names, name, after[..j]));
      InEdgesStep(names, name, after, j, edges);
      AppendedNext(successors0, successors, name, after, j);
      if source in names {
        RecordEdge(Nodes(names), successors, inDegree, edges + InEdges(names, name, after[..j]), source, name);
        successors := successors[source := successors[source] + [name]];
        inDegree := inDegree[name := inDegree[name] + 1];
      }
    }
    assert after[..|after|] == after;
  }

  /** The edges declared by the names of `part`, with ends among `names`. */
  ghost function DeclaredBy(names: seq<string>, constraints: map<string, Ordering>, part: seq<string>): (e: Edges)
    requires forall n :: n in part ==> n in constraints
  {
    if part == [] then {}
    else
      var last := part[|part| - 1];
      DeclaredBy(names, constraints, part[..|part| - 1])
      + OutEdges(names, last, constraints[last].mustRunBefore)
      + InEdges(names, last, constraints[last].mustRunAfter)
  }

  lemma {:induction false} DeclaredByMembers(names: seq<string>, constraints: map<string, Ordering>, part: seq<string>)
    requires forall n :: n in part ==> n in constraints && n in names
    ensures forall a, b :: (a, b) in DeclaredBy(names, constraints, part) <==>
      && a in names && b in names
      && ((a in part && b in constraints[a].mustRunBefore) || (b in part && a in constraints[b].mustRunAfter))
  {
    if part != [] {
      var init, last := part[..|part| - 1], part[|part| - 1];
      assert part == init + [last];
      DeclaredByMembers(names, constraints, init);
    }
  }

  method BuildGraph(names: seq<string>, constraints: map<string, Ordering>)
    returns (inDegree: map<string, int>, successors: map<string, seq<string>>)
    requires forall n :: n in names ==> n in constraints
    ensures Counted(Nodes(names), successors, inDegree, ConstraintEdges(names, constraints))
    ensures successors == Successors(names, constraints, names)
  {
    hide Counted, DeclaredBy, Nodes, Successors, Repeat, Filter;
    inDegree := map n | n in names :: 0;
    successors := map n | n in names :: [];
    NothingCounted(names, constraints, successors, inDegree);
    NoSuccessors(names, constraints);
    for i := 0 to |names|
      invariant Counted(Nodes(names), successors, inDegree, DeclaredBy(names, constraints, names[..i]))
      invariant successors == Successors(names, constraints, names[..i])
    {
      var name := names[i];
      DeclaredByNext(names, constraints, i);
      ghost var edges := DeclaredBy(names, constraints, names[..i]);
      var before, after := constraints[name].mustRunBefore, constraints[name].mustRunAfter;
      var inDegree', successors' := RecordBefore(names, name, before, inDegree, successors, edges);
      inDegree, successors := RecordAfter(names, name, after, inDegree', successors', edges + OutEdges(names, name, before));
      SuccessorsNext(names, constraints, i, successors', successors);
    }
    assert names[..|names|] == names;
    AllDeclared(names, constraints);
  }

  lemma AllDeclared(names: seq<string>, constraints: map<string, Ordering>)
    requires forall n :: n in names ==> n in constraints
    ensures DeclaredBy(names, constraints, names) == ConstraintEdges(names, constraints)
  {
    hide DeclaredBy, ConstraintEdges;
    DeclaredByMembers(names, constraints, names);
    var declared, edges := DeclaredBy(names, constraints, names), ConstraintEdges(names, constraints);
    forall e ensures e in declared <==> e in edges {
      assert e == (e.0, e.1);
      assert (e.0, e.1) in declared <==> (e.0, e.1) in edges;
    }
  }

  lemma NothingCounted(names: seq<string>, constraints: map<string, Ordering>,
                       successors: map<string, seq<string>>, inDegree: map<string, int>)
    requires successors == map n | n in names :: []
    requires inDegree == map n | n in names :: 0
    ensures Counted(Nodes(names), successors, inDegree, DeclaredBy(names, constraints, names[..0]))
  {
    hide Nodes;
    NoTargets(Nodes(names), successors);
  }

  lemma DeclaredByNext(names: seq<string>, constraints: map<string, Ordering>, i: nat)
    requires i < |names| && forall n :: n in names ==> n in constraints
    ensures var name := names[i];
      DeclaredBy(names, constraints, names[..i + 1]) == DeclaredBy(names, constraints, names[..i])
        + OutEdges(names, name, constraints[name].mustRunBefore) + InEdges(names, name, constraints[name].mustRunAfter)
  {
    assert names[..i + 1][..i] == names[..i] && names[..i + 1][i] == names[i];
  }

  lemma {:induction false} NoTargets(names: seq<string>, successors: map<string, seq<string>>)
    requires forall n :: n in names ==> n in successors && successors[n] == []
    ensures Targets(names, successors, []) == multiset{}
  {
    if names != [] {
      NoTargets(names[1..], successors);
    }
  }

  // ---------------------------------------------------------------- the release loop

  function Decremented(inDegree: map<string, int>, succs: seq<string>): map<string, int> {
    map v | v in inDegree :: inDegree[v] - multiset(succs)[v]
  }

  /** The listed names whose in-degree is used up, in the order in which that happens. */
  function NewlyZero(inDegree: map<string, int>, succs: seq<string>): seq<string>
    requires forall v :: v in succs ==> v in inDegree
  {
    if succs == [] then []
    else
      var init, last := succs[..|succs| - 1], succs[|succs| - 1];
      if inDegree[last] == multiset(succs)[last] then NewlyZero(inDegree, init) + [last] else NewlyZero(inDegree, init)
  }

  lemma NoneZero(inDegree: map<string, int>, succs: seq<string>)
    ensures Decremented(inDegree, succs[..0]) == inDegree && NewlyZero(inDegree, succs[..0]) == []
  {
  }

  lemma NewlyZeroNext(inDegree: map<string, int>, succs: seq<string>, i: nat)
    requires i < |succs| && forall v :: v in succs ==> v in inDegree
    ensures NewlyZero(inDegree, succs[..i + 1]) ==
      if inDegree[succs[i]] == multiset(succs[..i + 1])[succs[i]] then NewlyZero(inDegree, succs[..i]) + [succs[i]]
      else NewlyZero(inDegree, succs[..i])
  {
    assert succs[..i + 1][..i] == succs[..i] && succs[..i + 1][i] == succs[i];
  }

  lemma DecrementedNext(inDegree: map<string, int>, succs: seq<string>, i: nat)
    requires i < |succs| && forall v :: v in succs ==> v in inDegree
    ensures var d := Decremented(inDegree, succs[..i]);
      Decremented(inDegree, succs[..i + 1]) == d[succs[i] := d[succs[i]] - 1]
  {
    assert succs[..i + 1] == succs[..i] + [succs[i]];
  }

  lemma {:induction false} NewlyZeroMembers(inDegree: map<string, int>, succs: seq<string>)
    requires forall v :: v in succs ==> v in inDegree
    ensures Distinct(NewlyZero(inDegree, succs))
    ensures forall v :: v in NewlyZero(inDegree, succs) <==> v in inDegree && inDegree[v] > 0 && Decremented(inDegree, succs)[v] <= 0
  {
    if succs != [] {
      var init, last := succs[..|succs| - 1], succs[|succs| - 1];
      assert succs == init + [last];
      NewlyZeroMembers(inDegree, init);
    }
  }

  /** Decrement the in-degree of every listed successor and collect those that reach zero on the way. */
  method ReleaseSuccessors(succs: seq<string>, inDegree0: map<string, int>)
    returns (inDegree: map<string, int>, newlyZero: seq<string>)
    requires forall v :: v in succs ==> v in inDegree0
    ensures inDegree == Decremented(inDegree0, succs) && newlyZero == NewlyZero(inDegree0, succs)
    ensures Distinct(newlyZero)
    ensures forall v :: v in newlyZero <==> v in inDegree0 && inDegree0[v] > 0 && inDegree[v] <= 0
  {
    hide NewlyZero;
    inDegree := inDegree0;
    newlyZero := [];
    NoneZero(inDegree0, succs);
    for i := 0 to |succs|
      invariant inDegree == Decremented(inDegree0, succs[..i]) && newlyZero == NewlyZero(inDegree0, succs[..i])
    {
      var succ := succs[i];
      NewlyZeroNext(inDegree0, succs, i);
      DecrementedNext(inDegree0, succs, i);
      inDegree := inDegree[succ := inDegree[succ] - 1];
      if inDegree[succ] == 0 {
        newlyZero := newlyZero + [succ];
      }
    }
    assert succs[..|succs|] == succs;
    NewlyZeroMembers(inDegree0, succs);
  }

  /** The names nothing leads to, which either queue starts with. */
  function Roots(names: seq<string>, inDegree: map<string, int>): seq<string> {
    Filter(n => n in inDegree && inDegree[n] == 0, names)
  }

  /** The names that were not placed, in their given order. */
  function Leftover(names: seq<string>, placed: seq<string>): seq<string> {
    Filter(n => n !in placed, names)
  }

  /** What both queue loops maintain. */
  ghost predicate KahnState(names: seq<string>, edges: Edges, successors: map<string, seq<string>>,
                            inDegree: map<string, int>, queue: seq<string>, result: seq<string>) {
    && Links(names, successors, edges)
    && inDegree.Keys == successors.Keys
    && (forall v :: v in names ==> inDegree[v] == Targets(names, successors, result)[v])
    && Seen(names, inDegree, result + queue)
    && ClosedUnderPredecessors(edges, result)
  }

  /** The names placed or queued are those whose in-degree has dropped to zero, each once. */
  ghost predicate Seen(names: seq<string>, inDegree: map<string, int>, seen: seq<string>)
    requires forall v :: v in names ==> v in inDegree
  {
    && Distinct(seen)
    && (forall v :: v in seen ==> v in names)
    && (forall v :: v in names ==> (inDegree[v] == 0 <==> v in seen))
  }

  ghost predicate Ready(names: seq<string>, edges: Edges, placed: seq<string>, v: string) {
    v in names && v !in placed && forall e :: e in edges && e.1 == v ==> e.0 in placed
  }

  lemma ZeroInDegree(names: seq<string>, edges: Edges, successors: map<string, seq<string>>, result: seq<string>, v: string)
    requires Links(names, successors, edges) && v in names
    ensures Targets(names, successors, result)[v] == 0 <==> forall e :: e in edges && e.1 == v ==> e.0 in result
  {
    TargetsMembers(names, successors, result, v);
    if forall e :: e in edges && e.1 == v ==> e.0 in result {
      forall u | u in names && v in successors[u] ensures u in result {
        assert (u, v) in edges;
      }
    } else {
      var e :| e in edges && e.1 == v && e.0 !in result;
      assert e.0 in names && v in successors[e.0];
    }
  }

  /** The queue holds exactly the names whose predecessors have all been placed. */
  lemma QueueIsReady(names: seq<string>, edges: Edges, successors: map<string, seq<string>>,
                     inDegree: map<string, int>, queue: seq<string>, result: seq<string>)
    requires KahnState(names, edges, successors, inDegree, queue, result)
    ensures forall v :: v in queue <==> Ready(names, edges, result, v)
  {
    forall v ensures v in queue <==> Ready(names, edges, result, v) {
      if v in names {
        ZeroInDegree(names, edges, successors, result, v);
        assert v in result + queue <==> v in result || v in queue;
        DistinctParts(result, queue);
      } else {
        assert v in queue ==> v in result + queue;
      }
    }
  }

  lemma SeenStep(names: seq<string>, inDegree: map<string, int>, seen: seq<string>, succs: seq<string>,
                 inDegree': map<string, int>, newlyZero: seq<string>, seen': seq<string>)
    requires forall v :: v in names ==> v in inDegree && v in inDegree'
    requires Seen(names, inDegree, seen) && forall v :: v in succs ==> v in names
    requires forall v :: v in names ==> inDegree'[v] == inDegree[v] - multiset(succs)[v] && inDegree'[v] >= 0
    requires Distinct(newlyZero) && forall v :: v in newlyZero <==> v in succs && inDegree'[v] == 0
    requires multiset(seen') == multiset(seen + newlyZero)
    ensures Seen(names, inDegree', seen')
  {
    MultisetMembers(seen', seen + newlyZero);
    forall v | v in newlyZero ensures v !in seen {
      assert multiset(succs)[v] > 0;
      assert inDegree[v] > 0;
    }
    DistinctConcat(seen, newlyZero);
    PermutationDistinct(seen + newlyZero, seen');
    forall v | v in names ensures inDegree'[v] == 0 <==> v in seen' {
      assert v !in succs ==> multiset(succs)[v] == 0;
      assert v in seen' <==> v in seen || v in newlyZero;
    }
  }

  lemma ClosedStep(edges: Edges, result: seq<string>, node: string)
    requires ClosedUnderPredecessors(edges, result)
    requires forall e :: e in edges && e.1 == node ==> e.0 in result
    ensures ClosedUnderPredecessors(edges, result + [node])
  {
    var r := result + [node];
    forall e, j | e in edges && 0 <= j < |r| && r[j] == e.1 ensures e.0 in r[..j] {
      if j < |result| {
        assert r[..j] == result[..j] && result[j] == e.1;
      } else {
        assert r[..j] == result;
      }
    }
  }

  /** One turn of either queue loop: the head moves to the result, the released names join the queue. */
  lemma KahnStep(names: seq<string>, edges: Edges, successors: map<string, seq<string>>,
                 inDegree: map<string, int>, queue: seq<string>, result: seq<string>,
                 inDegree': map<string, int>, newlyZero: seq<string>, queue': seq<string>)
    requires Distinct(names) && queue != [] && KahnState(names, edges, successors, inDegree, queue, result)
    requires queue[0] in successors && inDegree'.Keys == inDegree.Keys
    requires forall v :: v in names ==> inDegree'[v] == inDegree[v] - multiset(successors[queue[0]])[v]
    requires Distinct(newlyZero)
    requires forall v :: v in newlyZero <==> v in successors[queue[0]] && v in names && inDegree'[v] == 0
    requires multiset(queue') == multiset(queue[1..] + newlyZero)
    ensures KahnState(names, edges, successors, inDegree', queue', result + [queue[0]])
  {
    var node := queue[0];
    assert node in names && node !in result by {
      DistinctParts(result, queue);
      assert node in queue && node in result + queue;
    }
    assert ClosedUnderPredecessors(edges, result + [node]) by {
      QueueIsReady(names, edges, successors, inDegree, queue, result);
      assert node in queue;
      ClosedStep(edges, result, node);
    }
    FinishTargets(names, successors, result, node);
    forall v | v in successors[node] ensures v in names { assert (node, v) in edges; }
    KahnSeen(names, inDegree, queue, result, successors[node], inDegree', newlyZero, queue');
    hide Seen, Targets, ClosedUnderPredecessors, Distinct;
  }

  lemma KahnSeen(names: seq<string>, inDegree: map<string, int>, queue: seq<string>, result: seq<string>,
                 succs: seq<string>, inDegree': map<string, int>, newlyZero: seq<string>, queue': seq<string>)
    requires forall v :: v in names ==> v in inDegree && v in inDegree'
    requires queue != [] && Seen(names, inDegree, result + queue) && forall v :: v in succs ==> v in names
    requires forall v :: v in names ==> inDegree'[v] == inDegree[v] - multiset(succs)[v] && inDegree'[v] >= 0
    requires Distinct(newlyZero) && forall v :: v in newlyZero <==> v in succs && v in names && inDegree'[v] == 0
    requires multiset(queue') == multiset(queue[1..] + newlyZero)
    ensures Seen(names, inDegree', result + [queue[0]] + queue')
  {
    hide Seen, Distinct;
    assert result + queue == result + [queue[0]] + queue[1..];
    SeenStep(names, inDegree, result + queue, succs, inDegree', newlyZero, result + [queue[0]] + queue');
  }

  /** A turn of either sort's loop is such a turn. */
  lemma KahnReleased(names: seq<string>, edges: Edges, successors: map<string, seq<string>>,
                     inDegree: map<string, int>, queue: seq<string>, result: seq<string>,
                     inDegree': map<string, int>, newlyZero: seq<string>, queue': seq<string>)
    requires Distinct(names) && queue != [] && KahnState(names, edges, successors, inDegree, queue, result)
    requires queue[0] in successors && inDegree'.Keys == inDegree.Keys
    requires forall v :: v in inDegree ==> inDegree'[v] == inDegree[v] - multiset(successors[queue[0]])[v]
    requires Distinct(newlyZero)
    requires forall v :: v in newlyZero <==> v in inDegree && inDegree[v] > 0 && inDegree'[v] <= 0
    requires multiset(queue') == multiset(queue[1..] + newlyZero)
    ensures KahnState(names, edges, successors, inDegree', queue', result + [queue[0]])
  {
    hide Seen, Targets, ClosedUnderPredecessors, Distinct;
    DegreesSuffice(names, edges, successors, inDegree, queue, result);
    var succs := successors[queue[0]];
    forall v ensures v in newlyZero <==> v in succs && v in names && inDegree'[v] == 0 {
      assert v in succs <==> multiset(succs)[v] > 0;
    }
    KahnStep(names, edges, successors, inDegree, queue, result, inDegree', newlyZero, queue');
  }

  /** When the queue runs dry, what is missing from the result is stuck. */
  lemma KahnEnd(names: seq<string>, edges: Edges, successors: map<string, seq<string>>,
                inDegree: map<string, int>, result: seq<string>)
    requires KahnState(names, edges, successors, inDegree, [], result)
    ensures Distinct(result) && Stuck(names, edges, result)
    ensures forall v :: v in result ==> v in names
  {
    assert result + [] == result;
    QueueIsReady(names, edges, successors, inDegree, [], result);
    forall v | v in names && v !in result ensures Waits(names, edges, result, v) {
      assert !Ready(names, edges, result, v);
      var e :| e in edges && e.1 == v && e.0 !in result;
      assert e.0 in names && (e.0, v) in edges;
    }
  }

  lemma Without(t: seq<string>, x: string) returns (t': seq<string>)
    requires Distinct(t) && x in t
    ensures Distinct(t') && |t'| == |t| - 1 && multiset(t') + multiset{x} == multiset(t)
    ensures forall v :: v in t' <==> v in t && v != x
  {
    hide Distinct;
    var i :| 0 <= i < |t| && t[i] == x;
    t' := t[..i] + t[i + 1..];
    assert multiset(t') + multiset{x} == multiset(t) by {
      assert t == t[..i] + [t[i]] + t[i + 1..];
    }
    forall v ensures multiset(t')[v] <= 1 && (v in multiset(t') <==> v in t && v != x) {
      DistinctMultiplicity(t, v);
      assert multiset(t)[v] == multiset(t')[v] + multiset{x}[v];
    }
    assert forall v :: v in t' <==> v in multiset(t');
    MultiplicityDistinct(t');
  }

  lemma {:induction false} SubsetBySize(s: seq<string>, t: seq<string>)
    requires Distinct(s) && Distinct(t) && forall v :: v in s ==> v in t
    ensures |s| <= |t|
    ensures |s| == |t| ==> multiset(s) == multiset(t)
    ensures |s| != |t| ==> exists v :: v in t && v !in s
  {
    if s == [] {
      assert t != [] ==> t[0] in t;
    } else {
      assert s[0] in t;
      var t' := Without(t, s[0]);
      assert s == [s[0]] + s[1..];
      assert forall v :: v in s[1..] ==> v in s && v != s[0];
      SubsetBySize(s[1..], t');
      if |s| != |t| {
        var v :| v in t' && v !in s[1..];
      }
    }
  }

  /** A result whose edges all point forwards respects the constraints. */
  lemma ClosedRespects(edges: Edges, r: seq<string>)
    requires Distinct(r) && ClosedUnderPredecessors(edges, r)
    ensures Respects(edges, r)
  {
    forall i, j | 0 <= i < |r| && 0 <= j < |r| && (r[i], r[j]) in edges ensures i < j {
      var e := (r[i], r[j]);
      assert e.0 in r[..j];
    }
  }

  lemma KahnInit(names: seq<string>, edges: Edges, successors: map<string, seq<string>>,
                 inDegree: map<string, int>, queue: seq<string>)
    requires Distinct(names) && Counted(names, successors, inDegree, edges)
    requires multiset(queue) == multiset(Roots(names, inDegree))
    ensures KahnState(names, edges, successors, inDegree, queue, [])
  {
    hide Targets, Filter, Distinct;
    var roots := Roots(names, inDegree);
    FilterDistinct(n => n in inDegree && inDegree[n] == 0, names);
    PermutationDistinct(roots, queue);
    MultisetMembers(roots, queue);
    assert [] + queue == queue;
  }

  /** The degrees of a node's successors cover all the edges about to be removed. */
  lemma DegreesSuffice(names: seq<string>, edges: Edges, successors: map<string, seq<string>>,
                       inDegree: map<string, int>, queue: seq<string>, result: seq<string>)
    requires Distinct(names) && queue != [] && KahnState(names, edges, successors, inDegree, queue, result)
    ensures queue[0] in successors && |result| < |names|
    ensures forall v :: v in successors[queue[0]] ==> v in names && v in inDegree && inDegree[v] >= multiset(successors[queue[0]])[v]
  {
    var node := queue[0];
    assert result + queue == result + [node] + queue[1..];
    DistinctParts(result, queue);
    DistinctParts(result + [node], queue[1..]);
    assert node in result + queue && node in queue;
    FinishTargets(names, successors, result, node);
    forall v | v in successors[node] ensures v in names { assert (node, v) in edges; }
    forall v | v in result + [node] ensures v in names { assert v in result + queue; }
    SubsetBySize(result + [node], names);
  }

  /** The edge set has a cycle exactly when the loop ends early, and then the names it did not reach
      are those some cycle leads to. */
  lemma KahnVerdict(names: seq<string>, edges: Edges, successors: map<string, seq<string>>,
                    inDegree: map<string, int>, result: seq<string>)
    requires Distinct(names) && Among(names, edges) && KahnState(names, edges, successors, inDegree, [], result)
    ensures |result| == |names| <==> !Cyclic(edges)
    ensures |result| == |names| ==> TopologicalOrder(names, edges, result)
    ensures Leftover(names, result) == Filter(n => BehindCycle(edges, n), names)
  {
    KahnEnd(names, edges, successors, inDegree, result);
    SubsetBySize(result, names);
    StuckIffCyclic(names, edges, result);
    StuckNodes(names, edges, result);
    ClosedRespects(edges, result);
    if |result| == |names| {
      MultisetMembers(result, names);
    }
    FilterCongruence(n => n !in result, n => BehindCycle(edges, n), names);
  }

  // ---------------------------------------------------------------- lists with repeated names

  /** No constraint leads to `v`. */
  ghost predicate Free(edges: Edges, v: string) {
    forall e :: e in edges ==> e.1 != v
  }

  /** How often a name has been queued so far: a free one as often as it is listed, any other once its
      in-degree has dropped to zero, and then once. */
  ghost function Queued(names: seq<string>, edges: Edges, inDegree: map<string, int>, v: string): nat {
    if v !in names || v !in inDegree then 0
    else if Free(edges, v) then multiset(names)[v]
    else if inDegree[v] <= 0 then 1 else 0
  }

  /** What the queue loop maintains for any list of names. A repeated free name is placed more than once,
      and each time takes its edges off the in-degrees again. */
  ghost predicate LooseState(names: seq<string>, edges: Edges, successors: map<string, seq<string>>,
                             inDegree: map<string, int>, queue: seq<string>, result: seq<string>) {
    && Links(Nodes(names), successors, edges)
    && inDegree.Keys == successors.Keys
    && (forall v :: v in names ==> inDegree[v] <= Targets(Nodes(names), successors, result)[v])
    && (forall v :: multiset(result + queue)[v] == Queued(names, edges, inDegree, v))
  }

  lemma LooseInit(names: seq<string>, edges: Edges, successors: map<string, seq<string>>,
                  inDegree: map<string, int>, queue: seq<string>)
    requires Counted(Nodes(names), successors, inDegree, edges)
    requires multiset(queue) == multiset(Roots(names, inDegree))
    ensures LooseState(names, edges, successors, inDegree, queue, [])
  {
    hide Nodes, Targets, Roots, Queued;
    assert [] + queue == queue;
    forall v ensures multiset([] + queue)[v] == Queued(names, edges, inDegree, v) {
      QueuedFirst(names, edges, successors, inDegree, v);
    }
  }

  lemma QueuedFirst(names: seq<string>, edges: Edges, successors: map<string, seq<string>>, inDegree: map<string, int>, v: string)
    requires Counted(Nodes(names), successors, inDegree, edges)
    ensures multiset(Roots(names, inDegree))[v] == Queued(names, edges, inDegree, v)
  {
    hide Nodes, Targets, Filter;
    FilterMultiplicity(n => n in inDegree && inDegree[n] == 0, names, v);
    if v in names {
      ZeroInDegree(Nodes(names), edges, successors, [], v);
    } else {
      assert multiset(names)[v] == 0;
    }
  }

  lemma LooseTargets(names: seq<string>, successors: map<string, seq<string>>, result: seq<string>, node: string, v: string)
    requires node in names && forall n :: n in names ==> n in successors
    ensures Targets(Nodes(names), successors, result)[v]
         <= Targets(Nodes(names), successors, result + [node])[v] + multiset(successors[node])[v]
    ensures node in result ==> Targets(Nodes(names), successors, result)[v] == Targets(Nodes(names), successors, result + [node])[v]
  {
    hide Nodes, Targets;
    if node in result {
      TargetsUnchanged(Nodes(names), successors, successors, result, result + [node]);
    } else {
      FinishTargets(Nodes(names), successors, result, node);
    }
  }

  lemma LooseStep(names: seq<string>, edges: Edges, successors: map<string, seq<string>>,
                  inDegree: map<string, int>, queue: seq<string>, result: seq<string>,
                  inDegree': map<string, int>, newlyZero: seq<string>, queue': seq<string>)
    requires queue != [] && LooseState(names, edges, successors, inDegree, queue, result)
    requires queue[0] in names && queue[0] in successors && inDegree'.Keys == inDegree.Keys
    requires forall v :: v in inDegree ==> inDegree'[v] == inDegree[v] - multiset(successors[queue[0]])[v]
    requires Distinct(newlyZero)
    requires forall v :: v in newlyZero <==> v in successors[queue[0]] && v in inDegree && inDegree[v] > 0 && inDegree'[v] <= 0
    requires multiset(queue') == multiset(queue[1..] + newlyZero)
    ensures LooseState(names, edges, successors, inDegree', queue', result + [queue[0]])
  {
    hide Nodes, Targets, Queued, Distinct;
    var node := queue[0];
    forall v | v in names ensures inDegree'[v] <= Targets(Nodes(names), successors, result + [node])[v] {
      LooseTargets(names, successors, result, node, v);
    }
    QueueMoves(queue, result, newlyZero, queue');
    forall v ensures multiset(result + [node] + queue')[v] == Queued(names, edges, inDegree', v) {
      QueuedNext(names, edges, successors, inDegree, inDegree', node, newlyZero, v);
    }
  }

  lemma QueueMoves(queue: seq<string>, result: seq<string>, newlyZero: seq<string>, queue': seq<string>)
    requires queue != [] && multiset(queue') == multiset(queue[1..] + newlyZero)
    ensures multiset(result + [queue[0]] + queue') == multiset(result + queue) + multiset(newlyZero)
  {
    assert queue == [queue[0]] + queue[1..];
  }

  lemma QueuedNext(names: seq<string>, edges: Edges, successors: map<string, seq<string>>, inDegree: map<string, int>,
                   inDegree': map<string, int>, node: string, newlyZero: seq<string>, v: string)
    requires Links(Nodes(names), successors, edges) && node in names && node in successors && inDegree'.Keys == inDegree.Keys
    requires v in inDegree ==> inDegree'[v] == inDegree[v] - multiset(successors[node])[v]
    requires Distinct(newlyZero)
    requires v in newlyZero <==> v in inDegree && inDegree[v] > 0 && inDegree'[v] <= 0
    requires inDegree.Keys == successors.Keys
    ensures Queued(names, edges, inDegree', v) == Queued(names, edges, inDegree, v) + multiset(newlyZero)[v]
  {
    hide Nodes, Distinct;
    DistinctMultiplicity(newlyZero, v);
    assert v !in successors[node] ==> multiset(successors[node])[v] == 0;
    if v in newlyZero {
      assert (node, v) in edges;
    }
  }

  /** The queue's head is one of the names. */
  lemma LooseHead(names: seq<string>, edges: Edges, successors: map<string, seq<string>>,
                  inDegree: map<string, int>, queue: seq<string>, result: seq<string>)
    requires queue != [] && LooseState(names, edges, successors, inDegree, queue, result)
    ensures queue[0] in names && queue[0] in successors
    ensures forall v :: v in successors[queue[0]] ==> v in names && v in inDegree
  {
    hide Nodes, Targets;
    assert queue[0] in multiset(result + queue) by { assert (result + queue)[|result|] == queue[0]; }
    forall v | v in successors[queue[0]] ensures v in names { assert (queue[0], v) in edges; }
  }

  /** Every name that is listed more than once has no constraint into it. */
  ghost predicate RepeatedAreFree(names: seq<string>, edges: Edges) {
    forall v :: multiset(names)[v] > 1 ==> Free(edges, v)
  }

  lemma LooseEnd(names: seq<string>, edges: Edges, successors: map<string, seq<string>>,
                 inDegree: map<string, int>, result: seq<string>)
    requires Among(names, edges) && LooseState(names, edges, successors, inDegree, [], result)
    ensures |result| == |names| ==> multiset(result) == multiset(names) && RepeatedAreFree(names, edges)
    ensures !Cyclic(edges) ==> (|result| == |names| <==> RepeatedAreFree(names, edges))
    ensures !Cyclic(edges) ==> forall v :: v in names ==> v in result
  {
    hide Nodes, Targets;
    assert result + [] == result;
    forall v ensures multiset(result)[v] <= multiset(names)[v] {
      assert multiset(result)[v] == Queued(names, edges, inDegree, v);
    }
    SmallerBag(result, names);
    forall v | |result| == |names| && multiset(names)[v] > 1 ensures Free(edges, v) {
      assert multiset(result)[v] == Queued(names, edges, inDegree, v);
    }
    if !Cyclic(edges) {
      AllPlaced(names, edges, successors, inDegree, result);
      if RepeatedAreFree(names, edges) {
        forall v ensures multiset(result)[v] == multiset(names)[v] {
          assert multiset(result)[v] == Queued(names, edges, inDegree, v);
          if v in names { assert v in result; }
        }
        assert multiset(result) == multiset(names);
        assert |multiset(result)| == |result| && |multiset(names)| == |names|;
      }
    }
  }

  lemma SmallerBag(s: seq<string>, t: seq<string>)
    requires multiset(s) <= multiset(t)
    ensures |s| == |t| ==> multiset(s) == multiset(t)
  {
    assert multiset(t) == multiset(s) + (multiset(t) - multiset(s));
    assert |multiset(t)| == |multiset(s)| + |multiset(t) - multiset(s)|;
    assert |multiset(s)| == |s| && |multiset(t)| == |t|;
  }

  lemma AllPlaced(names: seq<string>, edges: Edges, successors: map<string, seq<string>>,
                  inDegree: map<string, int>, result: seq<string>)
    requires Among(names, edges) && LooseState(names, edges, successors, inDegree, [], result) && !Cyclic(edges)
    ensures forall v :: v in names ==> v in result
  {
    hide LooseState, Waits, Cyclic, BehindCycle;
    forall v | v in names && v !in result ensures Waits(names, edges, result, v) {
      UnplacedWaits(names, edges, successors, inDegree, result, v);
    }
    forall v | v in names ensures v in result {
      if v !in result {
        WaitingIsBehindCycle(names, edges, result, [v]);
        BehindMeansCyclic(edges, v);
      }
    }
  }

  lemma UnplacedWaits(names: seq<string>, edges: Edges, successors: map<string, seq<string>>,
                      inDegree: map<string, int>, result: seq<string>, v: string)
    requires LooseState(names, edges, successors, inDegree, [], result) && v in names && v !in result
    ensures Waits(names, edges, result, v)
  {
    hide Nodes, Targets, Free;
    assert result + [] == result;
    assert multiset(result)[v] == Queued(names, edges, inDegree, v) == 0;
    assert inDegree[v] > 0;
    TargetsMembers(Nodes(names), successors, result, v);
    var u :| u in Nodes(names) && u !in result && v in successors[u];
    assert u in names && (u, v) in edges;
  }

  lemma BehindMeansCyclic(edges: Edges, v: string)
    requires BehindCycle(edges, v)
    ensures Cyclic(edges)
  {
  }

  // which constraints an order keeps when names are repeated

  /** No repeated name has a constraint into `v`. */
  ghost predicate Singly(names: seq<string>, edges: Edges, v: string) {
    forall e :: e in edges && e.1 == v ==> multiset(names)[e.0] <= 1
  }

  ghost predicate FreeFirst(edges: Edges, seen: seq<string>) {
    forall i, j :: 0 <= i < j < |seen| && Free(edges, seen[j]) ==> Free(edges, seen[i])
  }

  /** Free names come first; the in-degree of a name without repeated predecessors counts exactly, so that it
      is placed only after all of them. */
  ghost predicate Tidy(names: seq<string>, edges: Edges, successors: map<string, seq<string>>,
                       inDegree: map<string, int>, queue: seq<string>, result: seq<string>)
  {
    && FreeFirst(edges, result + queue)
    && (forall n :: n in names ==> n in successors && n in inDegree)
    && (forall v :: v in names && Singly(names, edges, v) ==> inDegree[v] == Targets(Nodes(names), successors, result)[v])
    && (forall e, j :: e in edges && 0 <= j < |result| && result[j] == e.1 && Singly(names, edges, e.1) ==> e.0 in result[..j])
  }

  lemma TidyInit(names: seq<string>, edges: Edges, successors: map<string, seq<string>>,
                 inDegree: map<string, int>, queue: seq<string>)
    requires Counted(Nodes(names), successors, inDegree, edges)
    requires multiset(queue) == multiset(Roots(names, inDegree))
    ensures Tidy(names, edges, successors, inDegree, queue, [])
  {
    hide Nodes, Targets, Filter;
    assert [] + queue == queue;
    MultisetMembers(queue, Roots(names, inDegree));
    forall i | 0 <= i < |queue| ensures Free(edges, queue[i]) {
      assert queue[i] in queue;
      ZeroInDegree(Nodes(names), edges, successors, [], queue[i]);
    }
  }

  /** A name that a name without repetition precedes finds that one not placed before its turn. */
  lemma NotPlacedYet(names: seq<string>, edges: Edges, successors: map<string, seq<string>>,
                     inDegree: map<string, int>, queue: seq<string>, result: seq<string>, v: string)
    requires queue != [] && LooseState(names, edges, successors, inDegree, queue, result)
    requires queue[0] in names && (queue[0], v) in edges && Singly(names, edges, v)
    ensures queue[0] !in result
  {
    hide Nodes, Targets, Links;
    var node := queue[0];
    assert multiset(names)[node] <= 1 by { assert (node, v).1 == v; }
    assert multiset(result + queue)[node] <= 1;
    HeadCounts(result, queue);
  }

  lemma HeadCounts(result: seq<string>, queue: seq<string>)
    requires queue != [] && multiset(result + queue)[queue[0]] <= 1
    ensures queue[0] !in result
  {
    assert result + queue == result + [queue[0]] + queue[1..];
    assert queue[0] in result <==> multiset(result)[queue[0]] >= 1;
  }

  /** A turn of the loop and a name that no repeated one must precede. */
  lemma TidyDegree(names: seq<string>, edges: Edges, successors: map<string, seq<string>>,
                   inDegree: map<string, int>, queue: seq<string>, result: seq<string>, v: string)
    requires queue != [] && LooseState(names, edges, successors, inDegree, queue, result)
    requires queue[0] in names && queue[0] in successors && v in names && Singly(names, edges, v)
    ensures forall n :: n in names ==> n in successors
    ensures Targets(Nodes(names), successors, result)[v]
         == Targets(Nodes(names), successors, result + [queue[0]])[v] + multiset(successors[queue[0]])[v]
  {
    hide Nodes, Targets, Singly, Queued;
    var node := queue[0];
    if node !in result {
      FinishTargets(Nodes(names), successors, result, node);
    } else {
      if v in successors[node] {
        assert (node, v) in edges;
        NotPlacedYet(names, edges, successors, inDegree, queue, result, v);
      }
      LooseTargets(names, successors, result, node, v);
    }
  }

  /** The head of the queue follows all its predecessors, unless a repeated one is among them. */
  lemma TidyHead(names: seq<string>, edges: Edges, successors: map<string, seq<string>>,
                 inDegree: map<string, int>, queue: seq<string>, result: seq<string>)
    requires queue != [] && LooseState(names, edges, successors, inDegree, queue, result)
    requires Tidy(names, edges, successors, inDegree, queue, result)
    ensures Singly(names, edges, queue[0]) ==> forall e :: e in edges && e.1 == queue[0] ==> e.0 in result
  {
    hide Nodes, Targets, FreeFirst;
    var node := queue[0];
    assert (result + queue)[|result|] == node;
    assert multiset(result + queue)[node] == Queued(names, edges, inDegree, node) > 0;
    if Singly(names, edges, node) && !Free(edges, node) {
      ZeroInDegree(Nodes(names), edges, successors, result, node);
    }
  }

  lemma FreeFirstNext(edges: Edges, seen: seq<string>, more: seq<string>)
    requires FreeFirst(edges, seen) && forall v :: v in more ==> !Free(edges, v)
    ensures FreeFirst(edges, seen + more)
  {
    hide Free;
    var all := seen + more;
    assert forall j :: |seen| <= j < |all| ==> all[j] in more;
  }

  lemma TidyStep(names: seq<string>, edges: Edges, successors: map<string, seq<string>>,
                 inDegree: map<string, int>, queue: seq<string>, result: seq<string>,
                 inDegree': map<string, int>, newlyZero: seq<string>)
    requires queue != [] && LooseState(names, edges, successors, inDegree, queue, result)
    requires Tidy(names, edges, successors, inDegree, queue, result)
    requires queue[0] in names && queue[0] in successors && inDegree'.Keys == inDegree.Keys
    requires forall v :: v in inDegree ==> inDegree'[v] == inDegree[v] - multiset(successors[queue[0]])[v]
    requires forall v :: v in newlyZero <==> v in inDegree && inDegree[v] > 0 && inDegree'[v] <= 0
    ensures Tidy(names, edges, successors, inDegree', queue[1..] + newlyZero, result + [queue[0]])
  {
    hide Nodes, Targets, FreeFirst, Singly;
    var node := queue[0];
    var placed := result + [node];
    assert FreeFirst(edges, placed + (queue[1..] + newlyZero)) by {
      forall v | v in newlyZero ensures !Free(edges, v) {
        ReleasedNotFree(names, edges, successors, inDegree, queue, result, inDegree', v);
      }
      FreeFirstNext(edges, result + queue, newlyZero);
      assert placed + (queue[1..] + newlyZero) == result + queue + newlyZero;
    }
    forall v | v in names && Singly(names, edges, v) ensures inDegree'[v] == Targets(Nodes(names), successors, placed)[v] {
      TidyDegree(names, edges, successors, inDegree, queue, result, v);
    }
    TidyHead(names, edges, successors, inDegree, queue, result);
    forall e, j | e in edges && 0 <= j < |placed| && placed[j] == e.1 && Singly(names, edges, e.1) ensures e.0 in placed[..j] {
      assert placed[..j] == result[..j];
      if j == |result| {
        assert result[..j] == result;
      }
    }
  }

  lemma ReleasedNotFree(names: seq<string>, edges: Edges, successors: map<string, seq<string>>,
                        inDegree: map<string, int>, queue: seq<string>, result: seq<string>,
                        inDegree': map<string, int>, v: string)
    requires queue != [] && LooseState(names, edges, successors, inDegree, queue, result)
    requires queue[0] in names && queue[0] in successors && inDegree'.Keys == inDegree.Keys
    requires v in inDegree && inDegree[v] > 0 && inDegree'[v] <= 0
    requires inDegree'[v] == inDegree[v] - multiset(successors[queue[0]])[v]
    ensures !Free(edges, v)
  {
    hide Nodes, Targets;
    assert v in successors[queue[0]];
    assert (queue[0], v) in edges;
  }

  lemma TwoPlaces(s: seq<string>, i: nat, j: nat)
    requires i < j < |s| && s[i] == s[j]
    ensures multiset(s)[s[i]] >= 2
  {
    assert s == s[..j] + [s[j]] + s[j + 1..];
    assert s[..j][i] == s[j];
    assert multiset(s[..j])[s[j]] >= 1;
  }

  lemma OnlyPlace(s: seq<string>, i: nat, j: nat)
    requires i < |s| && j < |s| && s[i] == s[j] && multiset(s)[s[i]] <= 1
    ensures i == j
  {
    if i < j {
      TwoPlaces(s, i, j);
    } else if j < i {
      TwoPlaces(s, j, i);
    }
  }

  lemma TidyEnd(names: seq<string>, edges: Edges, successors: map<string, seq<string>>,
                inDegree: map<string, int>, result: seq<string>)
    requires Tidy(names, edges, successors, inDegree, [], result) && multiset(result) == multiset(names)
    ensures MostKept(names, edges, result)
  {
    hide Nodes, Targets;
    assert result + [] == result;
    forall e, i, j | e in edges && (Free(edges, e.0) || Singly(names, edges, e.1))
                     && 0 <= i < |result| && 0 <= j < |result| && result[i] == e.0 && result[j] == e.1
      ensures i < j
    {
      if Singly(names, edges, e.1) {
        var k :| 0 <= k < |result[..j]| && result[..j][k] == e.0;
        OnlyPlace(result, k, i);
      } else {
        assert Free(edges, result[i]) && !Free(edges, result[j]);
      }
    }
  }

  /** The turns left: queued names and names still to be released. */
  function Positive(inDegree: map<string, int>): set<string> {
    set v | v in inDegree && inDegree[v] > 0
  }

  lemma {:induction false} DistinctSize(s: seq<string>)
    requires Distinct(s)
    ensures |set v | v in s| == |s|
  {
    if s != [] {
      DistinctSize(s[1..]);
      assert s == [s[0]] + s[1..];
      assert (set v | v in s) == (set v | v in s[1..]) + {s[0]};
    }
  }

  lemma FewerTurns(inDegree: map<string, int>, inDegree': map<string, int>, newlyZero: seq<string>)
    requires inDegree'.Keys == inDegree.Keys && Distinct(newlyZero)
    requires forall v :: v in inDegree ==> inDegree'[v] <= inDegree[v]
    requires forall v :: v in newlyZero <==> v in inDegree && inDegree[v] > 0 && inDegree'[v] <= 0
    ensures |Positive(inDegree')| + |newlyZero| == |Positive(inDegree)|
  {
    DistinctSize(newlyZero);
    var released := set v | v in newlyZero;
    assert Positive(inDegree) == Positive(inDegree') + released && Positive(inDegree') !! released;
  }

  // ---------------------------------------------------------------- _topological_sort

  /** Every name in the queue or in a successor list has a list and a degree of its own. */
  ghost predicate Wired(successors: map<string, seq<string>>, inDegree: map<string, int>, queue: seq<string>) {
    && inDegree.Keys == successors.Keys
    && (forall v :: v in queue ==> v in successors)
    && (forall u, v :: u in successors && v in successors[u] ==> v in successors)
  }

  lemma WiredNext(successors: map<string, seq<string>>, inDegree: map<string, int>, queue: seq<string>, succs: seq<string>)
    requires Wired(successors, inDegree, queue) && queue != [] && succs == Sort(StringLe, successors[queue[0]])
    ensures forall v :: v in succs ==> v in inDegree
    ensures var inDegree', newlyZero := Decremented(inDegree, succs), NewlyZero(inDegree, succs);
      && Wired(successors, inDegree', queue[1..] + newlyZero)
      && |queue[1..] + newlyZero| + |Positive(inDegree')| < |queue| + |Positive(inDegree)|
  {
    hide NewlyZero, Positive, Distinct;
    MultisetMembers(succs, successors[queue[0]]);
    NewlyZeroMembers(inDegree, succs);
    FewerTurns(inDegree, Decremented(inDegree, succs), NewlyZero(inDegree, succs));
  }

  /** The order in which the queue loop places names from here on. */
  ghost function Order(successors: map<string, seq<string>>, inDegree: map<string, int>, queue: seq<string>): seq<string>
    requires Wired(successors, inDegree, queue)
    decreases |queue| + |Positive(inDegree)|
  {
    if queue == [] then []
    else
      var succs := Sort(StringLe, successors[queue[0]]);
      WiredNext(successors, inDegree, queue, succs);
      [queue[0]] + Order(successors, Decremented(inDegree, succs), queue[1..] + NewlyZero(inDegree, succs))
  }

  ghost function Degrees(names: seq<string>, successors: map<string, seq<string>>): map<string, int>
    requires forall n :: n in names ==> n in successors
  {
    map v | v in names :: Targets(Nodes(names), successors, [])[v]
  }

  lemma {:induction false} SuccessorsAmong(names: seq<string>, constraints: map<string, Ordering>, part: seq<string>, u: string)
    requires forall n :: n in part ==> n in constraints && n in names
    ensures forall v :: v in SuccessorsOf(names, constraints, part, u) ==> v in names
  {
    if part != [] {
      assert part == part[..|part| - 1] + [part[|part| - 1]];
      SuccessorsAmong(names, constraints, part[..|part| - 1], u);
    }
  }

  lemma AllWired(names: seq<string>, constraints: map<string, Ordering>)
    requires forall n :: n in names ==> n in constraints
    ensures var successors := Successors(names, constraints, names);
      && (forall n :: n in names ==> n in successors)
      && var inDegree := Degrees(names, successors); Wired(successors, inDegree, Sort(StringLe, Roots(names, inDegree)))
  {
    hide SuccessorsOf, Targets, Nodes, Sort, Filter;
    forall u | u in names ensures forall v :: v in SuccessorsOf(names, constraints, names, u) ==> v in names {
      SuccessorsAmong(names, constraints, names, u);
    }
    var inDegree := Degrees(names, Successors(names, constraints, names));
    MultisetMembers(Sort(StringLe, Roots(names, inDegree)), Roots(names, inDegree));
  }

  /** What the sort returns, for any list of names. */
  ghost function Arranged(names: seq<string>, constraints: map<string, Ordering>): SortResult
    requires forall n :: n in names ==> n in constraints
  {
    AllWired(names, constraints);
    var successors := Successors(names, constraints, names);
    var inDegree := Degrees(names, successors);
    Outcome(names, Order(successors, inDegree, Sort(StringLe, Roots(names, inDegree))))
  }

  function Outcome(names: seq<string>, order: seq<string>): SortResult {
    if |order| != |names| then CycleAmong(Leftover(names, order)) else Sorted(order)
  }

  /** The order respects every constraint; failing means a cycle, and the names reported are, in their
      given order, those some cycle leads to. */
  ghost predicate TopologicalSortSpec(names: seq<string>, edges: Edges, r: SortResult) {
    && (r.Sorted? <==> !Cyclic(edges))
    && (r.Sorted? ==> TopologicalOrder(names, edges, r.order))
    && (r.CycleAmong? ==> r.members == Filter(n => BehindCycle(edges, n), names))
  }

  /** The order puts every occurrence of `u` before every occurrence of `v`. */
  ghost predicate Keeps(order: seq<string>, u: string, v: string) {
    forall i, j :: 0 <= i < |order| && 0 <= j < |order| && order[i] == u && order[j] == v ==> i < j
  }

  /** What the sort does with any list. Distinct names give the above. In general the result is still a
      permutation, but constraints without a cycle are refused, with an empty report, as soon as a repeated
      name has one leading to it; and a constraint can only be broken when it starts at a name with a
      constraint into it, and ends at a name that a repeated one must precede. */
  ghost predicate SortOutcome(names: seq<string>, edges: Edges, r: SortResult) {
    && (Distinct(names) ==> TopologicalSortSpec(names, edges, r))
    && (r.Sorted? ==> multiset(r.order) == multiset(names) && RepeatedAreFree(names, edges) && MostKept(names, edges, r.order))
    && (!Cyclic(edges) ==> (r.Sorted? <==> RepeatedAreFree(names, edges)))
    && (!Cyclic(edges) && r.CycleAmong? ==> r.members == [])
  }

  ghost predicate MostKept(names: seq<string>, edges: Edges, order: seq<string>) {
    forall e :: e in edges && (Free(edges, e.0) || Singly(names, edges, e.1)) ==> Keeps(order, e.0, e.1)
  }

  /** What the queue loop of this sort maintains. */
  ghost predicate SortLoop(names: seq<string>, edges: Edges, successors: map<string, seq<string>>,
                           inDegree: map<string, int>, queue: seq<string>, result: seq<string>) {
    && LooseState(names, edges, successors, inDegree, queue, result)
    && Tidy(names, edges, successors, inDegree, queue, result)
    && (Distinct(names) ==> KahnState(names, edges, successors, inDegree, queue, result))
  }

  lemma SortLoopInit(names: seq<string>, edges: Edges, successors: map<string, seq<string>>,
                     inDegree: map<string, int>, queue: seq<string>)
    requires Counted(Nodes(names), successors, inDegree, edges) && queue == Sort(StringLe, Roots(names, inDegree))
    ensures SortLoop(names, edges, successors, inDegree, queue, [])
  {
    hide LooseState, Tidy, KahnState, Counted, Roots, Sort, Distinct;
    LooseInit(names, edges, successors, inDegree, queue);
    TidyInit(names, edges, successors, inDegree, queue);
    if Distinct(names) {
      KahnInit(names, edges, successors, inDegree, queue);
    }
  }

  lemma SortLoopStep(names: seq<string>, edges: Edges, successors: map<string, seq<string>>,
                     inDegree: map<string, int>, queue: seq<string>, result: seq<string>,
                     inDegree': map<string, int>, newlyZero: seq<string>)
    requires queue != [] && SortLoop(names, edges, successors, inDegree, queue, result) && queue[0] in successors
    requires var succs := Sort(StringLe, successors[queue[0]]);
      && (forall v :: v in succs ==> v in inDegree)
      && inDegree' == Decremented(inDegree, succs) && newlyZero == NewlyZero(inDegree, succs)
    ensures SortLoop(names, edges, successors, inDegree', queue[1..] + newlyZero, result + [queue[0]])
  {
    hide LooseState, Tidy, KahnState, Sort, Distinct, NewlyZero;
    var succs := Sort(StringLe, successors[queue[0]]);
    var queue' := queue[1..] + newlyZero;
    NewlyZeroMembers(inDegree, succs);
    LooseHead(names, edges, successors, inDegree, queue, result);
    assert multiset(succs) == multiset(successors[queue[0]]);
    LooseStep(names, edges, successors, inDegree, queue, result, inDegree', newlyZero, queue');
    TidyStep(names, edges, successors, inDegree, queue, result, inDegree', newlyZero);
    if Distinct(names) {
      KahnReleased(names, edges, successors, inDegree, queue, result, inDegree', newlyZero, queue');
    }
  }

  /** The loop's invariant from here to where it ends. */
  lemma {:induction false} SortLoopEnd(names: seq<string>, edges: Edges, successors: map<string, seq<string>>,
                                       inDegree: map<string, int>, queue: seq<string>, result: seq<string>)
    returns (inDegree': map<string, int>)
    requires Wired(successors, inDegree, queue) && SortLoop(names, edges, successors, inDegree, queue, result)
    ensures SortLoop(names, edges, successors, inDegree', [], result + Order(successors, inDegree, queue))
    decreases |queue| + |Positive(inDegree)|
  {
    hide SortLoop, Wired, Sort, NewlyZero, Order;
    if queue == [] {
      OrderEnd(successors, inDegree, result);
      inDegree' := inDegree;
    } else {
      WiredKeys(successors, inDegree, queue);
      OrderNext(successors, inDegree, queue, result);
      var succs := Sort(StringLe, successors[queue[0]]);
      WiredNext(successors, inDegree, queue, succs);
      var next, newlyZero := Decremented(inDegree, succs), NewlyZero(inDegree, succs);
      SortLoopStep(names, edges, successors, inDegree, queue, result, next, newlyZero);
      inDegree' := SortLoopEnd(names, edges, successors, next, queue[1..] + newlyZero, result + [queue[0]]);
    }
  }

  lemma {:induction false} SuccessorsMembers(names: seq<string>, constraints: map<string, Ordering>, part: seq<string>, u: string)
    requires u in names && forall n :: n in part ==> n in constraints && n in names
    ensures forall v :: v in SuccessorsOf(names, constraints, part, u) <==>
      || (u in part && v in names && v in constraints[u].mustRunBefore)
      || (v in part && u in constraints[v].mustRunAfter)
  {
    if part != [] {
      var init, last := part[..|part| - 1], part[|part| - 1];
      assert part == init + [last];
      SuccessorsMembers(names, constraints, init, u);
      var after := constraints[last].mustRunAfter;
      assert forall v :: v in Repeat(last, multiset(after)[u]) <==> v == last && u in after by {
        assert multiset(after)[u] > 0 ==> Repeat(last, multiset(after)[u])[0] == last;
      }
    }
  }

  /** The lists and degrees the sort starts from are those of the declared constraints. */
  lemma GraphCounted(names: seq<string>, constraints: map<string, Ordering>)
    requires forall n :: n in names ==> n in constraints
    ensures var successors := Successors(names, constraints, names);
      && (forall n :: n in names ==> n in successors)
      && Counted(Nodes(names), successors, Degrees(names, successors), ConstraintEdges(names, constraints))
  {
    hide Nodes, Targets, SuccessorsOf, ConstraintEdges;
    var successors, edges := Successors(names, constraints, names), ConstraintEdges(names, constraints);
    forall u | u in names ensures forall v :: v in successors[u] <==> (u, v) in edges {
      SuccessorsMembers(names, constraints, names, u);
    }
    forall e | e in edges ensures e.0 in names && e.1 in names && e.1 in successors[e.0] {
      assert (e.0, e.1) in edges;
    }
  }

  lemma ArrangedOutcome(names: seq<string>, constraints: map<string, Ordering>)
    requires forall n :: n in names ==> n in constraints
    ensures SortOutcome(names, ConstraintEdges(names, constraints), Arranged(names, constraints))
  {
    hide SortLoop, SortOutcome, Wired, Counted, Roots, Successors, Degrees, Order, Sort, NewlyZero, ConstraintEdges, Nodes;
    var edges, successors := ConstraintEdges(names, constraints), Successors(names, constraints, names);
    AllWired(names, constraints);
    GraphCounted(names, constraints);
    var inDegree := Degrees(names, successors);
    var queue := Sort(StringLe, Roots(names, inDegree));
    SortLoopInit(names, edges, successors, inDegree, queue);
    var end := SortLoopEnd(names, edges, successors, inDegree, queue, []);
    assert [] + Order(successors, inDegree, queue) == Order(successors, inDegree, queue);
    SortVerdict(names, edges, successors, end, Order(successors, inDegree, queue));
  }

  method TopologicalSort(names: seq<string>, constraints: map<string, Ordering>) returns (r: SortResult)
    requires forall n :: n in names ==> n in constraints
    ensures r == Arranged(names, constraints)
    ensures SortOutcome(names, ConstraintEdges(names, constraints), r)
  {
    hide SortOutcome, Wired, Counted, Roots, Successors, Degrees, Order, Sort, NewlyZero, ConstraintEdges, Nodes;
    var inDegree, successors := BuildGraph(names, constraints);
    var queue := Sort(StringLe, Roots(names, inDegree));
    var result: seq<string> := [];
    AllWired(names, constraints);
    CountedDegrees(names, successors, inDegree, ConstraintEdges(names, constraints));
    ghost var order := Order(successors, inDegree, queue);
    while queue != []
      invariant Wired(successors, inDegree, queue) && order == result + Order(successors, inDegree, queue)
      decreases |queue| + |Positive(inDegree)|
    {
      var node := queue[0];
      WiredKeys(successors, inDegree, queue);
      var succs := Sort(StringLe, successors[node]);
      WiredNext(successors, inDegree, queue, succs);
      OrderNext(successors, inDegree, queue, result);
      var inDegree', newlyZero := ReleaseSuccessors(succs, inDegree);
      inDegree, queue, result := inDegree', queue[1..] + newlyZero, result + [node];
    }
    OrderEnd(successors, inDegree, result);
    ArrangedOutcome(names, constraints);
    r := if |result| != |names| then CycleAmong(Leftover(names, result)) else Sorted(result);
  }

  lemma CountedDegrees(names: seq<string>, successors: map<string, seq<string>>, inDegree: map<string, int>, edges: Edges)
    requires Counted(Nodes(names), successors, inDegree, edges)
    ensures (forall n :: n in names ==> n in successors) && inDegree == Degrees(names, successors)
  {
    hide Nodes, Targets;
    assert inDegree.Keys == Degrees(names, successors).Keys;
  }

  lemma WiredKeys(successors: map<string, seq<string>>, inDegree: map<string, int>, queue: seq<string>)
    requires Wired(successors, inDegree, queue) && queue != []
    ensures queue[0] in successors
  {
  }

  lemma OrderNext(successors: map<string, seq<string>>, inDegree: map<string, int>, queue: seq<string>, result: seq<string>)
    requires Wired(successors, inDegree, queue) && queue != [] && queue[0] in successors
    ensures var succs := Sort(StringLe, successors[queue[0]]);
      && (forall v :: v in succs ==> v in inDegree)
      && var inDegree', queue' := Decremented(inDegree, succs), queue[1..] + NewlyZero(inDegree, succs);
      && Wired(successors, inDegree', queue')
      && result + Order(successors, inDegree, queue) == result + [queue[0]] + Order(successors, inDegree', queue')
  {
    hide Sort, NewlyZero, Wired;
    WiredNext(successors, inDegree, queue, Sort(StringLe, successors[queue[0]]));
  }

  lemma OrderEnd(successors: map<string, seq<string>>, inDegree: map<string, int>, result: seq<string>)
    requires Wired(successors, inDegree, [])
    ensures result + Order(successors, inDegree, []) == result
  {
  }

  lemma DistinctVerdict(names: seq<string>, edges: Edges, successors: map<string, seq<string>>,
                        inDegree: map<string, int>, result: seq<string>)
    requires Distinct(names) && Among(names, edges) && KahnState(names, edges, successors, inDegree, [], result)
    ensures TopologicalSortSpec(names, edges, Outcome(names, result))
  {
    hide KahnState, Cyclic, Distinct, BehindCycle, TopologicalOrder, Filter;
    KahnVerdict(names, edges, successors, inDegree, result);
  }

  lemma SortVerdict(names: seq<string>, edges: Edges, successors: map<string, seq<string>>,
                    inDegree: map<string, int>, result: seq<string>)
    requires Among(names, edges) && SortLoop(names, edges, successors, inDegree, [], result)
    ensures SortOutcome(names, edges, Outcome(names, result))
  {
    hide KahnState, LooseState, Tidy, Cyclic, Distinct, RepeatedAreFree, MostKept, Leftover, TopologicalSortSpec;
    LooseEnd(names, edges, successors, inDegree, result);
    if |result| == |names| {
      TidyEnd(names, edges, successors, inDegree, result);
    }
    if Distinct(names) {
      DistinctVerdict(names, edges, successors, inDegree, result);
    }
    if forall v :: v in names ==> v in result {
      NothingLeft(names, result);
    }
  }

  lemma {:induction false} NothingLeft(names: seq<string>, result: seq<string>)
    requires forall v :: v in names ==> v in result
    ensures Leftover(names, result) == []
  {
    if names != [] {
      NothingLeft(names[1..], result);
    }
  }

  // the promise of the sort needs distinct names

  /** For every set of constraints the sort keeps its promise. */
  ghost predicate PromiseKept(names: seq<string>) {
    forall constraints :: (forall n :: n in names ==> n in constraints) ==>
      TopologicalSortSpec(names, ConstraintEdges(names, constraints), Arranged(names, constraints))
  }

  /** On a list with at least two different names the sort keeps its promise, whatever the constraints,
      exactly when no name is repeated. */
  lemma PromiseKeptIffDistinct(names: seq<string>, a: string, b: string)
    requires a in names && b in names && a != b
    ensures PromiseKept(names) <==> Distinct(names)
  {
    hide TopologicalSortSpec, Arranged, ConstraintEdges, Distinct, Cyclic;
    if Distinct(names) {
      forall constraints | forall n :: n in names ==> n in constraints
        ensures TopologicalSortSpec(names, ConstraintEdges(names, constraints), Arranged(names, constraints))
      {
        ArrangedOutcome(names, constraints);
      }
    } else {
      var twice, other := RepeatedName(names, a, b);
      var constraints := map n | n in names :: Ordering(if n == other then [twice] else [], []);
      PromiseBroken(names, constraints, twice, other);
      assert !PromiseKept(names);
    }
  }

  lemma PromiseBroken(names: seq<string>, constraints: map<string, Ordering>, twice: string, other: string)
    requires multiset(names)[twice] > 1 && other in names && other != twice
    requires constraints == map n | n in names :: Ordering(if n == other then [twice] else [], [])
    ensures !TopologicalSortSpec(names, ConstraintEdges(names, constraints), Arranged(names, constraints))
  {
    hide Arranged, ConstraintEdges, Distinct, Cyclic;
    var edges := ConstraintEdges(names, constraints);
    OnlyEdge(names, constraints, other, twice);
    OneEdgeAcyclic(edges, other, twice);
    ArrangedOutcome(names, constraints);
    assert !Free(edges, twice) by { assert (other, twice) in edges; }
    assert !RepeatedAreFree(names, edges);
  }

  lemma RepeatedName(names: seq<string>, a: string, b: string) returns (twice: string, other: string)
    requires !Distinct(names) && a in names && b in names && a != b
    ensures multiset(names)[twice] > 1 && other in names && other != twice
  {
    if forall v :: multiset(names)[v] <= 1 {
      MultiplicityDistinct(names);
    }
    twice :| multiset(names)[twice] > 1;
    other := if twice == a then b else a;
  }

  lemma OnlyEdge(names: seq<string>, constraints: map<string, Ordering>, other: string, twice: string)
    requires other in names && twice in names
    requires constraints == map n | n in names :: Ordering(if n == other then [twice] else [], [])
    ensures ConstraintEdges(names, constraints) == {(other, twice)}
  {
    hide ConstraintEdges;
    var edges := ConstraintEdges(names, constraints);
    forall e ensures e in edges <==> e in {(other, twice)} {
      assert e == (e.0, e.1);
      assert (e.0, e.1) in edges <==> e.0 in names && e.1 in names && Declares(constraints, e.0, e.1);
    }
  }

  lemma OneEdgeAcyclic(edges: Edges, u: string, v: string)
    requires edges == {(u, v)} && u != v
    ensures !Cyclic(edges)
  {
    forall p ensures !Cycle(edges, p) {
      if |p| >= 2 && Path(edges, p) {
        FirstAndLastEdge(edges, p);
      }
    }
  }

  lemma FirstAndLastEdge(edges: Edges, p: seq<string>)
    requires |p| >= 2 && Path(edges, p)
    ensures (p[0], p[1]) in edges && (p[|p| - 2], p[|p| - 1]) in edges
  {
    assert (p[0], p[0 + 1]) in edges && (p[|p| - 2], p[|p| - 2 + 1]) in edges;
  }

  // what repeated names do to an order that is returned

  /** An edge between two members of an order that keeps all edges leads forwards, and so does a path. */
  lemma {:induction false} PathRises(edges: Edges, order: seq<string>, p: seq<string>, i: nat, j: nat)
    requires Respects(edges, order) && Path(edges, p) && |p| >= 2 && forall v :: v in p ==> v in order
    requires i < |order| && j < |order| && order[i] == p[0] && order[j] == p[|p| - 1]
    ensures i < j
  {
    assert (p[0], p[0 + 1]) in edges && p[1] in order;
    if |p| > 2 {
      var k :| 0 <= k < |order| && order[k] == p[1];
      PathSuffix(edges, p, 1);
      assert forall v :: v in p[1..] ==> v in p;
      PathRises(edges, order, p[1..], k, j);
    }
  }

  /** No name follows both a repeated one and one that itself follows something. */
  ghost predicate Harmless(names: seq<string>, edges: Edges) {
    forall e, f :: e in edges && f in edges && e.1 == f.1 && multiset(names)[e.0] > 1 ==> Free(edges, f.0)
  }

  lemma AllKept(names: seq<string>, edges: Edges, order: seq<string>)
    requires Harmless(names, edges) && MostKept(names, edges, order)
    ensures Respects(edges, order)
  {
    hide Free;
    forall i, j | 0 <= i < |order| && 0 <= j < |order| && (order[i], order[j]) in edges ensures i < j {
      var e := (order[i], order[j]);
      assert Free(edges, e.0) || Singly(names, edges, e.1);
      assert Keeps(order, e.0, e.1);
    }
  }

  lemma RespectedMeansAcyclic(names: seq<string>, edges: Edges, order: seq<string>)
    requires Among(names, edges) && multiset(order) == multiset(names) && Respects(edges, order)
    ensures !Cyclic(edges)
  {
    if p :| Cycle(edges, p) {
      CycleMembers(names, edges, p);
      MultisetMembers(order, names);
      assert p[0] in p && p[0] in order;
      var i :| 0 <= i < |order| && order[i] == p[0];
      PathRises(edges, order, p, i, i);
    }
  }

  /** Then repetition does not harm the order: one is returned exactly for constraints without a cycle and
      none into a repeated name, and it keeps all of them. */
  lemma HarmlessRepetition(names: seq<string>, constraints: map<string, Ordering>)
    requires forall n :: n in names ==> n in constraints
    requires Harmless(names, ConstraintEdges(names, constraints))
    ensures var edges, r := ConstraintEdges(names, constraints), Arranged(names, constraints);
      && (r.Sorted? <==> !Cyclic(edges) && RepeatedAreFree(names, edges))
      && (r.Sorted? ==> Respects(edges, r.order))
  {
    hide TopologicalSortSpec, Distinct, Harmless, MostKept, Cyclic, Arranged, ConstraintEdges, Respects, RepeatedAreFree;
    var edges, r := ConstraintEdges(names, constraints), Arranged(names, constraints);
    ArrangedOutcome(names, constraints);
    if r.Sorted? {
      AllKept(names, edges, r.order);
      RespectedMeansAcyclic(names, edges, r.order);
    }
  }

  // two lists with a repeated name, turn by turn

  /** What the name `n` adds to the successors of `u` by its own must_run_before. */
  function Adds(constraints: map<string, Ordering>, n: string, u: string): seq<string> {
    if u == n && n in constraints then constraints[n].mustRunBefore else []
  }

  ghost predicate OnlyBefore(names: seq<string>, constraints: map<string, Ordering>) {
    && (forall n :: n in names ==> n in constraints && constraints[n].mustRunAfter == [] && |constraints[n].mustRunBefore| <= 1)
    && (forall n, b :: n in names && b in constraints[n].mustRunBefore ==> b in names)
  }

  lemma AddsNext(names: seq<string>, constraints: map<string, Ordering>, i: nat, u: string)
    requires OnlyBefore(names, constraints) && i < |names|
    ensures SuccessorsOf(names, constraints, names[..i + 1], u)
         == SuccessorsOf(names, constraints, names[..i], u) + Adds(constraints, names[i], u)
  {
    var last := names[i];
    assert names[..i + 1][..i] == names[..i] && names[..i + 1][i] == last && last in names;
    assert Filter(b => b in names, constraints[last].mustRunBefore) == constraints[last].mustRunBefore;
    assert Repeat(last, multiset(constraints[last].mustRunAfter)[u]) == [];
    NothingAdded(SuccessorsOf(names, constraints, names[..i], u));
  }

  lemma AddsAll(names: seq<string>, constraints: map<string, Ordering>, u: string)
    requires OnlyBefore(names, constraints) && 4 <= |names| <= 5
    ensures SuccessorsOf(names, constraints, names, u)
         == Adds(constraints, names[0], u) + Adds(constraints, names[1], u) + Adds(constraints, names[2], u)
            + Adds(constraints, names[3], u) + if |names| == 5 then Adds(constraints, names[4], u) else []
  {
    hide OnlyBefore, Adds, SuccessorsOf;
    NoneDeclared(names, constraints, u);
    AddsNext(names, constraints, 0, u);
    AddsNext(names, constraints, 1, u);
    AddsNext(names, constraints, 2, u);
    AddsNext(names, constraints, 3, u);
    if |names| == 5 {
      AddsNext(names, constraints, 4, u);
    }
    assert names[..|names|] == names;
  }

  lemma NoneDeclared(names: seq<string>, constraints: map<string, Ordering>, u: string)
    ensures SuccessorsOf(names, constraints, names[..0], u) == []
  {
  }

  /** One turn of the loop on given values. */
  lemma TurnIs(successors: map<string, seq<string>>, inDegree: map<string, int>, queue: seq<string>,
               inDegree': map<string, int>, newlyZero: seq<string>)
    requires Wired(successors, inDegree, queue) && queue != [] && queue[0] in successors
    requires var succs := Sort(StringLe, successors[queue[0]]);
      && (forall v :: v in succs ==> v in inDegree)
      && inDegree' == Decremented(inDegree, succs) && newlyZero == NewlyZero(inDegree, succs)
    ensures Wired(successors, inDegree', queue[1..] + newlyZero)
    ensures Order(successors, inDegree, queue) == [queue[0]] + Order(successors, inDegree', queue[1..] + newlyZero)
  {
    hide NewlyZero, Sort;
    WiredNext(successors, inDegree, queue, Sort(StringLe, successors[queue[0]]));
  }

  lemma SortSame(s: seq<string>, x: string)
    requires forall y :: y in s ==> y == x
    ensures Sort(StringLe, s) == s
  {
    hide Sort;
    var sorted := Sort(StringLe, s);
    MultisetMembers(sorted, s);
    assert |multiset(sorted)| == |sorted| && |multiset(s)| == |s|;
    assert forall k :: 0 <= k < |sorted| ==> sorted[k] in sorted;
    assert forall k :: 0 <= k < |s| ==> s[k] in s;
  }

  lemma ZeroOnce(inDegree: map<string, int>, v: string)
    requires v in inDegree
    ensures NewlyZero(inDegree, [v]) == if inDegree[v] == 1 then [v] else []
    ensures Decremented(inDegree, [v]) == inDegree[v := inDegree[v] - 1]
  {
    assert [v][..0] == [];
  }

  lemma ZeroTwice(inDegree: map<string, int>, v: string)
    requires v in inDegree
    ensures NewlyZero(inDegree, [v, v]) == if 1 <= inDegree[v] <= 2 then [v] else []
    ensures Decremented(inDegree, [v, v]) == inDegree[v := inDegree[v] - 2]
  {
    hide Decremented;
    ZeroOnce(inDegree, v);
    DecrementedTwice(inDegree, v);
    assert [v, v][..1] == [v];
  }

  lemma DecrementedTwice(inDegree: map<string, int>, v: string)
    requires v in inDegree
    ensures Decremented(inDegree, [v, v]) == inDegree[v := inDegree[v] - 2]
  {
  }

  /** A turn whose name has one successor, and one whose name declared it twice. */
  lemma TurnOnce(successors: map<string, seq<string>>, inDegree: map<string, int>, queue: seq<string>, v: string)
    requires Wired(successors, inDegree, queue) && queue != [] && queue[0] in successors && v in inDegree
    requires successors[queue[0]] == [v] || successors[queue[0]] == [v, v]
    ensures var n := |successors[queue[0]]|;
      var inDegree', queue' := inDegree[v := inDegree[v] - n], queue[1..] + if 1 <= inDegree[v] <= n then [v] else [];
      && Wired(successors, inDegree', queue')
      && Order(successors, inDegree, queue) == [queue[0]] + Order(successors, inDegree', queue')
  {
    hide Wired, Sort, NewlyZero, Decremented;
    var succs := successors[queue[0]];
    SortSame(succs, v);
    ZeroOnce(inDegree, v);
    ZeroTwice(inDegree, v);
    TurnIs(successors, inDegree, queue, Decremented(inDegree, succs), NewlyZero(inDegree, succs));
  }

  lemma Concats(x: string)
    ensures [x] + [x] + [] + [] + [] == [x, x]
    ensures [] + [] + [x] + [] + [] == [x] && [] + [] + [] + [x] + [] == [x]
  {
  }

  lemma CycleAdds(a: string, b: string, c: string, constraints: map<string, Ordering>, u: string)
    requires a != b && a != c && b != c
    requires constraints == map[a := Ordering([b], []), b := Ordering([c], []), c := Ordering([b], [])]
    ensures OnlyBefore([a, a, b, c], constraints) && forall n :: n in [a, a, b, c] ==> n in constraints
    ensures Adds(constraints, a, u) == if u == a then [b] else []
    ensures Adds(constraints, b, u) == if u == b then [c] else []
    ensures Adds(constraints, c, u) == if u == c then [b] else []
  {
  }

  lemma CycleList(a: string, b: string, c: string, constraints: map<string, Ordering>, u: string)
    requires a != b && a != c && b != c
    requires constraints == map[a := Ordering([b], []), b := Ordering([c], []), c := Ordering([b], [])]
    ensures forall n :: n in [a, a, b, c] ==> n in constraints
    ensures SuccessorsOf([a, a, b, c], constraints, [a, a, b, c], u)
         == if u == a then [b, b] else if u == b then [c] else if u == c then [b] else []
  {
    hide SuccessorsOf, OnlyBefore, Adds;
    CycleAdds(a, b, c, constraints, u);
    AddsAll([a, a, b, c], constraints, u);
    Concats(b);
    Concats(c);
  }

  lemma CycleLists(a: string, b: string, c: string, constraints: map<string, Ordering>)
    requires a != b && a != c && b != c
    requires constraints == map[a := Ordering([b], []), b := Ordering([c], []), c := Ordering([b], [])]
    ensures Successors([a, a, b, c], constraints, [a, a, b, c]) == map[a := [b, b], b := [c], c := [b]]
  {
    hide SuccessorsOf;
    forall u | u in {a, b, c}
      ensures SuccessorsOf([a, a, b, c], constraints, [a, a, b, c], u) == if u == a then [b, b] else if u == b then [c] else [b]
    {
      CycleList(a, b, c, constraints, u);
    }
  }

  lemma TargetsNext(names: seq<string>, successors: map<string, seq<string>>, v: string)
    requires names != [] && forall n :: n in names ==> n in successors
    ensures Targets(names, successors, [])[v] == multiset(successors[names[0]])[v] + Targets(names[1..], successors, [])[v]
  {
  }

  lemma {:induction false} RepeatedHead(a: string, rest: seq<string>)
    requires Distinct([a] + rest)
    ensures Nodes([a] + ([a] + rest)) == [a] + rest
  {
    var names := [a] + ([a] + rest);
    if rest == [] {
      assert names[..1] == [a] && names[1] == a && Nodes([a]) == [a];
    } else {
      var init, last := rest[..|rest| - 1], rest[|rest| - 1];
      assert rest == init + [last];
      assert names[..|names| - 1] == [a] + ([a] + init) && names[|names| - 1] == last;
      assert ([a] + rest)[..|rest|] == [a] + init;
      assert last !in [a] + init;
      RepeatedHead(a, init);
    }
  }

  lemma ThreeTargets(a: string, b: string, c: string, successors: map<string, seq<string>>, v: string)
    requires forall n :: n in [a, b, c] ==> n in successors
    ensures Targets([a, b, c], successors, [])[v]
         == multiset(successors[a])[v] + multiset(successors[b])[v] + multiset(successors[c])[v]
  {
    hide Targets;
    assert [a, b, c][1..] == [b, c] && [b, c][1..] == [c] && [c][1..] == [];
    NoTargets([], successors);
    TargetsNext([a, b, c], successors, v);
    TargetsNext([b, c], successors, v);
    TargetsNext([c], successors, v);
  }

  lemma CycleNodes(a: string, b: string, c: string)
    requires a != b && a != c && b != c
    ensures Nodes([a, a, b, c]) == [a, b, c]
  {
    hide Nodes;
    assert [a] + [b, c] == [a, b, c] && [a] + [a, b, c] == [a, a, b, c];
    RepeatedHead(a, [b, c]);
  }

  lemma CycleDegrees(a: string, b: string, c: string, successors: map<string, seq<string>>)
    requires a != b && a != c && b != c
    requires successors == map[a := [b, b], b := [c], c := [b]]
    ensures Degrees([a, a, b, c], successors) == map[a := 0, b := 3, c := 1]
  {
    hide Targets, Nodes;
    CycleNodes(a, b, c);
    forall v | v in {a, b, c} ensures Targets([a, b, c], successors, [])[v] == if v == a then 0 else if v == b then 3 else 1 {
      ThreeTargets(a, b, c, successors, v);
    }
  }

  lemma CycleTurns(a: string, b: string, c: string, successors: map<string, seq<string>>)
    requires a != b && a != c && b != c
    requires successors == map[a := [b, b], b := [c], c := [b]]
    ensures var inDegree := map[a := 0, b := 3, c := 1];
      && Wired(successors, inDegree, [a, a]) && Order(successors, inDegree, [a, a]) == [a, a, b, c]
  {
    hide Order, Wired;
    var d0 := map[a := 0, b := 3, c := 1];
    var d1, d2 := map[a := 0, b := 1, c := 1], map[a := 0, b := -1, c := 1];
    var d3, d4 := map[a := 0, b := -1, c := 0], map[a := 0, b := -2, c := 0];
    CycleWired(a, b, c, successors, d0);
    TurnOnce(successors, d0, [a, a], b);
    assert [a, a][1..] + [] == [a] && d0[b := 1] == d1;
    TurnOnce(successors, d1, [a], b);
    assert [a][1..] + [b] == [b] && d1[b := -1] == d2;
    TurnOnce(successors, d2, [b], c);
    assert [b][1..] + [c] == [c] && d2[c := 0] == d3;
    TurnOnce(successors, d3, [c], b);
    assert [c][1..] + [] == [] && d3[b := -2] == d4;
    NoTurns(successors, d4);
  }

  lemma CycleWired(a: string, b: string, c: string, successors: map<string, seq<string>>, inDegree: map<string, int>)
    requires successors == map[a := [b, b], b := [c], c := [b]] && inDegree.Keys == {a, b, c}
    ensures Wired(successors, inDegree, [a, a])
  {
    assert successors.Keys == {a, b, c};
  }

  lemma RootsNext(x: string, s: seq<string>, inDegree: map<string, int>)
    ensures Roots([x] + s, inDegree) == if x in inDegree && inDegree[x] == 0 then [x] + Roots(s, inDegree) else Roots(s, inDegree)
  {
    assert ([x] + s)[1..] == s;
  }

  lemma {:induction false} NoRoots(names: seq<string>, inDegree: map<string, int>)
    requires forall n :: n in names ==> n in inDegree && inDegree[n] > 0
    ensures Roots(names, inDegree) == []
  {
    if names != [] {
      assert names == [names[0]] + names[1..];
      RootsNext(names[0], names[1..], inDegree);
      NoRoots(names[1..], inDegree);
    }
  }

  /** A repeated name can make the sort accept a cycle: with a before b, b before c and c before b it orders
      the list a, a, b, c, whatever the three names are. */
  lemma CycleAccepted(a: string, b: string, c: string)
    requires a != b && a != c && b != c
    ensures var names := [a, a, b, c];
      var constraints := map[a := Ordering([b], []), b := Ordering([c], []), c := Ordering([b], [])];
      Cyclic(ConstraintEdges(names, constraints)) && Arranged(names, constraints) == Sorted([a, a, b, c])
  {
    hide Order, Sort, Roots, Degrees, Successors, Cyclic, ConstraintEdges, Wired;
    var names := [a, a, b, c];
    var constraints := map[a := Ordering([b], []), b := Ordering([c], []), c := Ordering([b], [])];
    var successors, inDegree := map[a := [b, b], b := [c], c := [b]], map[a := 0, b := 3, c := 1];
    CycleLists(a, b, c, constraints);
    CycleDegrees(a, b, c, successors);
    CycleRoots(a, b, c, inDegree);
    SortSame([a, a], a);
    CycleTurns(a, b, c, successors);
    assert (b, c) in ConstraintEdges(names, constraints) && (c, b) in ConstraintEdges(names, constraints);
    CyclicPair(ConstraintEdges(names, constraints), b, c);
  }

  lemma CycleRoots(a: string, b: string, c: string, inDegree: map<string, int>)
    requires a != b && a != c && b != c && inDegree == map[a := 0, b := 3, c := 1]
    ensures Roots([a, a, b, c], inDegree) == [a, a]
  {
    hide Filter;
    NoRoots([b, c], inDegree);
    RootsNext(a, [b, c], inDegree);
    RootsNext(a, [a, b, c], inDegree);
    assert [a] + [b, c] == [a, b, c] && [a] + [a, b, c] == [a, a, b, c];
    assert [a] + [] == [a] && [a] + [a] == [a, a];
  }

  lemma CyclicPair(edges: Edges, b: string, c: string)
    requires (b, c) in edges && (c, b) in edges
    ensures Cyclic(edges)
  {
    assert Cycle(edges, [b, c, b]);
  }

  lemma BrokenAdds(a: string, b: string, c: string, d: string, constraints: map<string, Ordering>, u: string)
    requires Distinct([a, d, c, b])
    requires constraints == map[a := Ordering([b], []), d := Ordering([c], []), c := Ordering([b], []), b := Ordering([], [])]
    ensures Adds(constraints, a, u) == if u == a then [b] else []
    ensures Adds(constraints, d, u) == if u == d then [c] else []
    ensures Adds(constraints, c, u) == if u == c then [b] else []
    ensures Adds(constraints, b, u) == []
  {
    BrokenApart(a, b, c, d);
  }

  lemma BrokenList(a: string, b: string, c: string, d: string, constraints: map<string, Ordering>, u: string)
    requires Distinct([a, d, c, b])
    requires constraints == map[a := Ordering([b], []), d := Ordering([c], []), c := Ordering([b], []), b := Ordering([], [])]
    ensures forall n :: n in [a, a, d, c, b] ==> n in constraints
    ensures SuccessorsOf([a, a, d, c, b], constraints, [a, a, d, c, b], u)
         == if u == a then [b, b] else if u == d then [c] else if u == c then [b] else []
  {
    hide SuccessorsOf, Distinct, OnlyBefore, Adds;
    BrokenApart(a, b, c, d);
    BrokenOnlyBefore(a, b, c, d, constraints);
    AddsAll([a, a, d, c, b], constraints, u);
    BrokenAdds(a, b, c, d, constraints, u);
    Concats(b);
    Concats(c);
  }

  lemma BrokenLists(a: string, b: string, c: string, d: string, constraints: map<string, Ordering>)
    requires Distinct([a, d, c, b])
    requires constraints == map[a := Ordering([b], []), d := Ordering([c], []), c := Ordering([b], []), b := Ordering([], [])]
    ensures Successors([a, a, d, c, b], constraints, [a, a, d, c, b]) == map[a := [b, b], d := [c], c := [b], b := []]
  {
    hide SuccessorsOf, Distinct;
    BrokenApart(a, b, c, d);
    forall u | u in {a, b, c, d}
      ensures SuccessorsOf([a, a, d, c, b], constraints, [a, a, d, c, b], u)
           == if u == a then [b, b] else if u == d then [c] else if u == c then [b] else []
    {
      BrokenList(a, b, c, d, constraints, u);
    }
  }

  lemma BrokenOnlyBefore(a: string, b: string, c: string, d: string, constraints: map<string, Ordering>)
    requires Distinct([a, d, c, b])
    requires constraints == map[a := Ordering([b], []), d := Ordering([c], []), c := Ordering([b], []), b := Ordering([], [])]
    ensures OnlyBefore([a, a, d, c, b], constraints) && forall n :: n in [a, a, d, c, b] ==> n in constraints
  {
    BrokenApart(a, b, c, d);
  }

  lemma BrokenDegrees(a: string, b: string, c: string, d: string, successors: map<string, seq<string>>)
    requires Distinct([a, d, c, b])
    requires successors == map[a := [b, b], d := [c], c := [b], b := []]
    ensures Degrees([a, a, d, c, b], successors) == map[a := 0, d := 0, c := 1, b := 3]
  {
    hide Targets, Nodes, Distinct;
    BrokenApart(a, b, c, d);
    BrokenNodes(a, b, c, d);
    forall v | v in {a, b, c, d}
      ensures Targets([a, d, c, b], successors, [])[v] == if v == c then 1 else if v == b then 3 else 0
    {
      FourTargets(a, d, c, b, successors, v);
    }
  }

  lemma BrokenNodes(a: string, b: string, c: string, d: string)
    requires Distinct([a, d, c, b])
    ensures Nodes([a, a, d, c, b]) == [a, d, c, b]
  {
    hide Nodes;
    assert [a] + [d, c, b] == [a, d, c, b] && [a] + [a, d, c, b] == [a, a, d, c, b];
    RepeatedHead(a, [d, c, b]);
  }

  lemma FourTargets(a: string, b: string, c: string, d: string, successors: map<string, seq<string>>, v: string)
    requires forall n :: n in [a, b, c, d] ==> n in successors
    ensures Targets([a, b, c, d], successors, [])[v]
         == multiset(successors[a])[v] + (multiset(successors[b])[v] + multiset(successors[c])[v] + multiset(successors[d])[v])
  {
    hide Targets;
    assert [a, b, c, d][1..] == [b, c, d];
    TargetsNext([a, b, c, d], successors, v);
    ThreeTargets(b, c, d, successors, v);
  }

  lemma TurnNone(successors: map<string, seq<string>>, inDegree: map<string, int>, queue: seq<string>)
    requires Wired(successors, inDegree, queue) && queue != [] && queue[0] in successors && successors[queue[0]] == []
    ensures Wired(successors, inDegree, queue[1..])
    ensures Order(successors, inDegree, queue) == [queue[0]] + Order(successors, inDegree, queue[1..])
  {
    hide Wired, Order;
    assert Sort(StringLe, []) == [] && Decremented(inDegree, []) == inDegree && NewlyZero(inDegree, []) == [];
    assert queue[1..] + [] == queue[1..];
    TurnIs(successors, inDegree, queue, inDegree, []);
  }

  lemma BrokenWired(a: string, b: string, c: string, d: string, successors: map<string, seq<string>>, inDegree: map<string, int>)
    requires successors == map[a := [b, b], d := [c], c := [b], b := []] && inDegree.Keys == {a, b, c, d}
    ensures Wired(successors, inDegree, [a, a, d])
  {
    assert successors.Keys == {a, b, c, d};
  }

  lemma BrokenTurns(a: string, b: string, c: string, d: string, successors: map<string, seq<string>>)
    requires Distinct([a, d, c, b])
    requires successors == map[a := [b, b], d := [c], c := [b], b := []]
    ensures var inDegree := map[a := 0, d := 0, c := 1, b := 3];
      && Wired(successors, inDegree, [a, a, d]) && Order(successors, inDegree, [a, a, d]) == [a, a, d, b, c]
  {
    hide Order, Wired;
    BrokenApart(a, b, c, d);
    var d0 := map[a := 0, d := 0, c := 1, b := 3];
    var d1, d2 := map[a := 0, d := 0, c := 1, b := 1], map[a := 0, d := 0, c := 1, b := -1];
    var d3, d4 := map[a := 0, d := 0, c := 0, b := -1], map[a := 0, d := 0, c := 0, b := -2];
    BrokenWired(a, b, c, d, successors, d0);
    TurnOnce(successors, d0, [a, a, d], b);
    assert [a, a, d][1..] + [] == [a, d] && d0[b := 1] == d1;
    TurnOnce(successors, d1, [a, d], b);
    assert [a, d][1..] + [b] == [d, b] && d1[b := -1] == d2;
    TurnOnce(successors, d2, [d, b], c);
    assert [d, b][1..] + [c] == [b, c] && d2[c := 0] == d3;
    TurnNone(successors, d3, [b, c]);
    assert [b, c][1..] == [c];
    TurnOnce(successors, d3, [c], b);
    assert [c][1..] + [] == [] && d3[b := -2] == d4;
    NoTurns(successors, d4);
  }

  lemma BrokenApart(a: string, b: string, c: string, d: string)
    requires Distinct([a, d, c, b])
    ensures a != b && a != c && a != d && b != c && b != d && c != d
  {
    var s := [a, d, c, b];
    assert s[0] != s[1] && s[0] != s[2] && s[0] != s[3] && s[1] != s[2] && s[1] != s[3] && s[2] != s[3];
  }

  lemma {:induction false} InsortEnd(s: seq<string>, x: string)
    requires forall y :: y in s ==> StringLe(y, x)
    ensures Insort(StringLe, s, x) == s + [x]
  {
    hide StringLe, Insort;
    if s == [] {
      InsortFirst(x);
    } else {
      InsortEnd(s[1..], x);
      InsortCons(StringLe, s, x);
      assert [s[0]] + (s[1..] + [x]) == s + [x];
    }
  }

  lemma InsortFirst(x: string)
    ensures Insort(StringLe, [], x) == [] + [x]
  {
  }

  lemma SortSnoc(s: seq<string>, x: string)
    requires Sort(StringLe, s) == s && forall y :: y in s ==> StringLe(y, x)
    ensures Sort(StringLe, s + [x]) == s + [x]
  {
    hide StringLe, Sort, Insort;
    SortLast(StringLe, s + [x]);
    assert (s + [x])[..|s|] == s;
    InsortEnd(s, x);
  }

  lemma SortThree(a: string, d: string)
    requires StringLe(a, d)
    ensures Sort(StringLe, [a, a, d]) == [a, a, d]
  {
    hide StringLe, Sort, Insort;
    var s := [a, a];
    SortSame(s, a);
    SortSnoc(s, d);
    assert s + [d] == [a, a, d];
  }

  lemma BrokenAcyclic(a: string, b: string, c: string, d: string, edges: Edges)
    requires Distinct([a, d, c, b]) && edges == {(a, b), (d, c), (c, b)}
    ensures !Cyclic(edges)
  {
    BrokenApart(a, b, c, d);
    OrderedMeansAcyclic([a, d, c, b], edges, [a, d, c, b]);
  }

  lemma BrokenEdges(a: string, b: string, c: string, d: string, constraints: map<string, Ordering>)
    requires Distinct([a, d, c, b])
    requires constraints == map[a := Ordering([b], []), d := Ordering([c], []), c := Ordering([b], []), b := Ordering([], [])]
    ensures ConstraintEdges([a, a, d, c, b], constraints) == {(a, b), (d, c), (c, b)}
  {
    hide ConstraintEdges;
    BrokenApart(a, b, c, d);
    var edges := ConstraintEdges([a, a, d, c, b], constraints);
    forall e ensures e in edges <==> e in {(a, b), (d, c), (c, b)} {
      assert e == (e.0, e.1);
      assert (e.0, e.1) in edges <==> e.0 in [a, a, d, c, b] && e.1 in [a, a, d, c, b] && Declares(constraints, e.0, e.1);
    }
  }

  /** A repeated name can make the sort return an order that breaks a constraint, although there is no cycle:
      with a before b, d before c and c before b it puts b before c in the list a, a, d, c, b. */
  lemma ConstraintBroken(a: string, b: string, c: string, d: string)
    requires Distinct([a, d, c, b]) && StringLe(a, d)
    ensures var names := [a, a, d, c, b];
      var constraints := map[a := Ordering([b], []), d := Ordering([c], []), c := Ordering([b], []), b := Ordering([], [])];
      && !Cyclic(ConstraintEdges(names, constraints))
      && (c, b) in ConstraintEdges(names, constraints)
      && Arranged(names, constraints) == Sorted([a, a, d, b, c])
  {
    hide Order, Sort, Filter, Targets, Nodes, SuccessorsOf, Cyclic, ConstraintEdges, StringLe, Distinct;
    var names := [a, a, d, c, b];
    var constraints := map[a := Ordering([b], []), d := Ordering([c], []), c := Ordering([b], []), b := Ordering([], [])];
    var successors, inDegree := map[a := [b, b], d := [c], c := [b], b := []], map[a := 0, d := 0, c := 1, b := 3];
    BrokenEdges(a, b, c, d, constraints);
    BrokenAcyclic(a, b, c, d, ConstraintEdges(names, constraints));
    BrokenLists(a, b, c, d, constraints);
    BrokenDegrees(a, b, c, d, successors);
    BrokenRoots(a, b, c, d, inDegree);
    SortThree(a, d);
    BrokenTurns(a, b, c, d, successors);
  }

  lemma BrokenRoots(a: string, b: string, c: string, d: string, inDegree: map<string, int>)
    requires Distinct([a, d, c, b]) && inDegree == map[a := 0, d := 0, c := 1, b := 3]
    ensures Roots([a, a, d, c, b], inDegree) == [a, a, d]
  {
    hide Filter;
    BrokenApart(a, b, c, d);
    NoRoots([c, b], inDegree);
    RootsNext(d, [c, b], inDegree);
    RootsNext(a, [d, c, b], inDegree);
    RootsNext(a, [a, d, c, b], inDegree);
    assert [d] + [c, b] == [d, c, b] && [a] + [d, c, b] == [a, d, c, b] && [a] + [a, d, c, b] == [a, a, d, c, b];
    assert [d] + [] == [d] && [a] + [d] == [a, d] && [a] + [a, d] == [a, a, d];
  }

  lemma NoTurns(successors: map<string, seq<string>>, inDegree: map<string, int>)
    requires Wired(successors, inDegree, [])
    ensures Order(successors, inDegree, []) == []
  {
  }

  // ---------------------------------------------------------------- _toposort_plugins

  /** The order is the first, in dictionary order, of all the orders that respect the constraints. */
  ghost predicate PluginSortSpec(ids: seq<string>, edges: Edges, r: SortResult) {
    && (r.Sorted? <==> !Cyclic(edges))
    && (r.Sorted? ==>
         && TopologicalOrder(ids, edges, r.order)
         && forall q :: TopologicalOrder(ids, edges, q) ==> LexLe(r.order, q))
    && (r.CycleAmong? ==> r.members == Sort(StringLe, Filter(n => BehindCycle(edges, n), ids)))
  }

  /** At every place the smallest name ready there was chosen. */
  ghost predicate Greedy(ids: seq<string>, edges: Edges, r: seq<string>) {
    forall i, v {:trigger Ready(ids, edges, r[..i], v)} ::
      0 <= i < |r| && Ready(ids, edges, r[..i], v) ==> StringLe(r[i], v)
  }

  lemma GreedyStep(ids: seq<string>, edges: Edges, r: seq<string>, x: string)
    requires Greedy(ids, edges, r) && forall v :: Ready(ids, edges, r, v) ==> StringLe(x, v)
    ensures Greedy(ids, edges, r + [x])
  {
    var r' := r + [x];
    forall i, v | 0 <= i < |r'| && Ready(ids, edges, r'[..i], v) ensures StringLe(r'[i], v) {
      assert r'[..i] == r[..i];
      assert i == |r| ==> r[..i] == r;
    }
  }

  lemma GreedyIsFirst(ids: seq<string>, edges: Edges, r: seq<string>, q: seq<string>)
    requires Distinct(ids) && Among(ids, edges) && Greedy(ids, edges, r)
    requires multiset(r) == multiset(ids) && TopologicalOrder(ids, edges, q)
    ensures LexLe(r, q)
  {
    assert |multiset(r)| == |r| && |multiset(q)| == |q|;
    if i :| 0 <= i < |r| && r[..i] == q[..i] && r[i] != q[i] {
      PermutationDistinct(ids, q);
      MultisetMembers(ids, q);
      assert Ready(ids, edges, r[..i], q[i]) by {
        forall e | e in edges && e.1 == q[i] ensures e.0 in q[..i] {
          var k :| 0 <= k < |q| && q[k] == e.0;
          assert (q[k], q[i]) in edges;
          assert q[..i][k] == e.0;
        }
      }
      LexLeAtFirstDifference(r, q, i);
    } else {
      SameThroughout(r, q, |r|);
      assert r == r[..|r|] && q == q[..|r|];
      LexLeReflexive(r);
    }
  }

  lemma {:induction false} SameThroughout(r: seq<string>, q: seq<string>, n: nat)
    requires n <= |r| && |r| == |q| && forall i :: 0 <= i < |r| && r[..i] == q[..i] ==> r[i] == q[i]
    ensures r[..n] == q[..n]
  {
    if n > 0 {
      SameThroughout(r, q, n - 1);
      assert r[..n] == r[..n - 1] + [r[n - 1]] && q[..n] == q[..n - 1] + [q[n - 1]];
    }
  }

  /** A turn of this sort's loop: its queue is kept sorted instead. */
  lemma PluginTurn(ids: seq<string>, edges: Edges, successors: map<string, seq<string>>,
                   inDegree: map<string, int>, queue: seq<string>, result: seq<string>, queue': seq<string>)
    requires Distinct(ids) && queue != [] && KahnState(ids, edges, successors, inDegree, queue, result)
    requires queue[0] in successors && forall v :: v in successors[queue[0]] ==> v in inDegree
    requires multiset(queue') == multiset(queue[1..] + Sort(StringLe, NewlyZero(inDegree, successors[queue[0]])))
    ensures KahnState(ids, edges, successors, Decremented(inDegree, successors[queue[0]]), queue', result + [queue[0]])
  {
    hide KahnState, Sort, NewlyZero, Distinct;
    var succs := successors[queue[0]];
    NewlyZeroMembers(inDegree, succs);
    KahnReleased(ids, edges, successors, inDegree, queue, result, Decremented(inDegree, succs), NewlyZero(inDegree, succs), queue');
  }

  method ToposortPlugins(ids: seq<string>, manifests: map<string, Ordering>) returns (r: SortResult)
    requires Distinct(ids) && forall n :: n in ids ==> n in manifests
    ensures PluginSortSpec(ids, ConstraintEdges(ids, manifests), r)
  {
    hide KahnState, Counted, Roots, Leftover, Sort, Distinct, SortedBy, PluginSortSpec, Greedy, NewlyZero, Decremented, Nodes,
      ConstraintEdges, Successors, StringLe, TotalPreorder;
    ghost var edges := ConstraintEdges(ids, manifests);
    var inDegree, successors := BuildGraph(ids, manifests);
    var queue := Sort(StringLe, Roots(ids, inDegree));
    var result: seq<string> := [];
    StringOrder();
    SortSorts(StringLe, Roots(ids, inDegree));
    KahnInit(ids, edges, successors, inDegree, queue);
    NothingPlaced(ids, edges);
    while queue != []
      invariant KahnState(ids, edges, successors, inDegree, queue, result)
      invariant SortedBy(StringLe, queue) && Greedy(ids, edges, result)
      decreases |ids| - |result|
    {
      DegreesSuffice(ids, edges, successors, inDegree, queue, result);
      var node := queue[0];
      HeadIsLeastReady(ids, edges, successors, inDegree, queue, result);
      GreedyStep(ids, edges, result, node);
      var inDegree', newlyZero := ReleaseSuccessors(successors[node], inDegree);
      SortedRest(queue);
      var queue' := InsortAll(queue[1..], Sort(StringLe, newlyZero));
      PluginTurn(ids, edges, successors, inDegree, queue, result, queue');
      inDegree, queue, result := inDegree', queue', result + [node];
    }
    PluginVerdict(ids, edges, successors, inDegree, result);
    if |result| != |ids| {
      return CycleAmong(Sort(StringLe, Leftover(ids, result)));
    }
    return Sorted(result);
  }

  lemma PluginVerdict(ids: seq<string>, edges: Edges, successors: map<string, seq<string>>,
                      inDegree: map<string, int>, result: seq<string>)
    requires Distinct(ids) && Among(ids, edges) && KahnState(ids, edges, successors, inDegree, [], result)
    requires Greedy(ids, edges, result)
    ensures PluginSortSpec(ids, edges,
      if |result| == |ids| then Sorted(result) else CycleAmong(Sort(StringLe, Leftover(ids, result))))
  {
    hide KahnState, Cyclic, Greedy, Distinct, Sort, Filter;
    KahnVerdict(ids, edges, successors, inDegree, result);
    forall q | |result| == |ids| && TopologicalOrder(ids, edges, q) ensures LexLe(result, q) {
      GreedyIsFirst(ids, edges, result, q);
    }
  }

  lemma NothingPlaced(ids: seq<string>, edges: Edges)
    ensures Greedy(ids, edges, [])
  {
  }

  lemma SortedRest(queue: seq<string>)
    requires queue != [] && SortedBy(StringLe, queue)
    ensures SortedBy(StringLe, queue[1..])
  {
  }

  lemma HeadIsLeastReady(ids: seq<string>, edges: Edges, successors: map<string, seq<string>>,
                         inDegree: map<string, int>, queue: seq<string>, result: seq<string>)
    requires queue != [] && KahnState(ids, edges, successors, inDegree, queue, result) && SortedBy(StringLe, queue)
    ensures forall v :: Ready(ids, edges, result, v) ==> StringLe(queue[0], v)
  {
    QueueIsReady(ids, edges, successors, inDegree, queue, result);
    forall v | Ready(ids, edges, result, v) ensures StringLe(queue[0], v) {
      var k :| 0 <= k < |queue| && queue[k] == v;
      StringLeTotal(v, v);
    }
  }

  lemma OneMoreOf(xs: seq<string>, i: nat)
    requires i < |xs|
    ensures multiset(xs[..i + 1]) == multiset(xs[..i]) + multiset{xs[i]}
  {
    assert xs[..i + 1] == xs[..i] + [xs[i]];
  }

  /** `bisect.insort` for every element of `xs` in turn. */
  method InsortAll(queue0: seq<string>, xs: seq<string>) returns (queue: seq<string>)
    requires SortedBy(StringLe, queue0)
    ensures SortedBy(StringLe, queue) && multiset(queue) == multiset(queue0 + xs)
  {
    hide SortedBy, StringLe, Insort, TotalPreorder;
    queue := queue0;
    StringOrder();
    for i := 0 to |xs|
      invariant SortedBy(StringLe, queue) && multiset(queue) == multiset(queue0) + multiset(xs[..i])
    {
      InsortSorts(StringLe, queue, xs[i]);
      queue := Insort(StringLe, queue, xs[i]);
      OneMoreOf(xs, i);
    }
    assert xs[..|xs|] == xs;
  }

  ghost predicate Reports(names: seq<string>, edges: Edges, r: SortResult) {
    TopologicalSortSpec(names, edges, r) || PluginSortSpec(names, edges, r)
  }

  /** A refusal names every member of every cycle, and with a name everything that must run after it. */
  lemma CycleReport(names: seq<string>, constraints: map<string, Ordering>, r: SortResult)
    requires r.CycleAmong? && Reports(names, ConstraintEdges(names, constraints), r)
    ensures var edges := ConstraintEdges(names, constraints);
      && (forall p, v :: Cycle(edges, p) && v in p ==> v in r.members)
      && (forall e :: e in edges && e.0 in r.members ==> e.1 in r.members)
  {
    hide Cycle, Path, LexLe, ConstraintEdges;
    var edges := ConstraintEdges(names, constraints);
    Reported(names, edges, r);
    forall p, v | Cycle(edges, p) && v in p ensures v in r.members {
      CycleMembers(names, edges, p);
    }
    forall e | e in edges && e.0 in r.members ensures e.1 in r.members {
      FurtherBehind(edges, e.0, e.1);
    }
  }

  lemma Reported(names: seq<string>, edges: Edges, r: SortResult)
    requires r.CycleAmong? && Reports(names, edges, r)
    ensures forall v :: v in r.members <==> v in names && BehindCycle(edges, v)
  {
    hide BehindCycle, LexLe;
    MultisetMembers(Sort(StringLe, Filter(n => BehindCycle(edges, n), names)), Filter(n => BehindCycle(edges, n), names));
  }

  lemma FurtherBehind(edges: Edges, u: string, v: string)
    requires BehindCycle(edges, u) && (u, v) in edges
    ensures BehindCycle(edges, v)
  {
    var p, q :| Cycle(edges, p) && Path(edges, q) && q[0] in p && q[|q| - 1] == u;
    var q' := q + [v];
    assert Path(edges, q') by {
      assert forall i :: 0 <= i < |q| - 1 ==> (q[i], q[i + 1]) in edges;
    }
    assert q'[0] == q[0] && q'[|q'| - 1] == v;
  }

  /** So a name can be reported without being on any cycle: here "c", which must only run after "b". */
  lemma BystanderReported()
    ensures forall r :: Reports(["a", "b", "c"], ConstraintEdges(["a", "b", "c"], Bystander()), r) ==> r.CycleAmong? && "c" in r.members
    ensures forall p :: Cycle(ConstraintEdges(["a", "b", "c"], Bystander()), p) ==> "c" !in p
  {
    hide Cyclic, Cycle, ConstraintEdges, Bystander, LexLe, BehindCycle, Reports;
    var names, edges := ["a", "b", "c"], ConstraintEdges(["a", "b", "c"], Bystander());
    BystanderEdges();
    LittleCycle(edges);
    forall r | Reports(names, edges, r) ensures r.CycleAmong? && "c" in r.members {
      CyclicReported(names, edges, r, ["a", "b", "a"]);
      CycleReport(names, Bystander(), r);
      assert ["a", "b", "a"][1] == "b" && "b" in r.members;
      assert ("b", "c").0 in r.members;
    }
    forall p | Cycle(edges, p) ensures "c" !in p {
      if "c" in p {
        LeavesMember(edges, p, "c");
      }
    }
  }

  lemma BystanderEdges()
    ensures ConstraintEdges(["a", "b", "c"], Bystander()) == {("a", "b"), ("b", "a"), ("b", "c")}
  {
    var names := ["a", "b", "c"];
    assert names[0] == "a" && names[1] == "b" && names[2] == "c";
    hide ConstraintEdges;
    var edges := ConstraintEdges(names, Bystander());
    assert ("a", "b") in edges && ("b", "a") in edges && ("b", "c") in edges;
    forall e | e in edges ensures e in {("a", "b"), ("b", "a"), ("b", "c")} {
      assert e == (e.0, e.1) && Declares(Bystander(), e.0, e.1);
    }
  }

  lemma LittleCycle(edges: Edges)
    requires ("a", "b") in edges && ("b", "a") in edges
    ensures Cycle(edges, ["a", "b", "a"])
  {
    var p := ["a", "b", "a"];
    forall i | 0 <= i < |p| - 1 ensures (p[i], p[i + 1]) in edges {
      assert i == 0 || i == 1;
    }
  }

  lemma CyclicReported(names: seq<string>, edges: Edges, r: SortResult, p: seq<string>)
    requires Reports(names, edges, r) && Cycle(edges, p)
    ensures r.CycleAmong?
  {
    hide Cycle, LexLe, BehindCycle;
  }

  /** Every member of a cycle has an edge out. */
  lemma LeavesMember(edges: Edges, p: seq<string>, v: string)
    requires Cycle(edges, p) && v in p
    ensures exists x :: (v, x) in edges
  {
    var k :| 0 <= k < |p| && p[k] == v;
    if k < |p| - 1 {
      assert (p[k], p[k + 1]) in edges;
    } else {
      assert (p[0], p[0 + 1]) in edges;
    }
  }

  function Bystander(): map<string, Ordering> {
    map["a" := Ordering(["b"], []), "b" := Ordering(["a", "c"], []), "c" := Ordering([], [])]
  }

  ghost predicate OnCycle(edges: Edges, v: string) {
    exists p :: Cycle(edges, p) && v in p
  }

  /** Following edges that never lead from a cycle's member to a bystander stays among the members. */
  lemma {:induction false} StaysOnCycle(edges: Edges, q: seq<string>)
    requires Path(edges, q) && OnCycle(edges, q[0])
    requires forall e :: e in edges && OnCycle(edges, e.0) ==> OnCycle(edges, e.1)
    ensures OnCycle(edges, q[|q| - 1])
  {
    if |q| > 1 {
      PathPrefix(edges, q, |q| - 1);
      StaysOnCycle(edges, q[..|q| - 1]);
      assert (q[|q| - 2], q[|q| - 2 + 1]) in edges;
    }
  }

  /** A refusal names exactly the members of cycles when no constraint leads from a member of a cycle to a
      name on none, and only then. */
  lemma ReportExactIff(names: seq<string>, constraints: map<string, Ordering>, r: SortResult)
    requires r.CycleAmong? && Reports(names, ConstraintEdges(names, constraints), r)
    ensures var edges := ConstraintEdges(names, constraints);
      (forall v :: v in r.members <==> OnCycle(edges, v)) <==>
      forall e :: e in edges && OnCycle(edges, e.0) ==> OnCycle(edges, e.1)
  {
    hide LexLe, ConstraintEdges, Cycle, Reports;
    var edges := ConstraintEdges(names, constraints);
    CycleReport(names, constraints, r);
    Reported(names, edges, r);
    if forall e :: e in edges && OnCycle(edges, e.0) ==> OnCycle(edges, e.1) {
      forall v ensures v in r.members <==> OnCycle(edges, v) {
        if v in r.members {
          var p, q :| Cycle(edges, p) && Path(edges, q) && q[0] in p && q[|q| - 1] == v;
          StaysOnCycle(edges, q);
        }
      }
    }
  }

  /** The outcome is determined by the plugins and the pairs declared between them. */
  lemma SameOutcome(ids: seq<string>, ids': seq<string>, edges: Edges, r: SortResult, r': SortResult)
    requires multiset(ids) == multiset(ids') && PluginSortSpec(ids, edges, r) && PluginSortSpec(ids', edges, r')
    ensures r == r'
  {
    if r.Sorted? {
      assert TopologicalOrder(ids, edges, r'.order) && TopologicalOrder(ids', edges, r.order);
      LexLeAntisymmetric(r.order, r'.order);
    } else {
      SameReport(ids, ids', edges);
    }
  }

  lemma SameReport(ids: seq<string>, ids': seq<string>, edges: Edges)
    requires multiset(ids) == multiset(ids')
    ensures Sort(StringLe, Filter(n => BehindCycle(edges, n), ids)) == Sort(StringLe, Filter(n => BehindCycle(edges, n), ids'))
  {
    hide Sort, Filter, BehindCycle;
    var s, s' := Filter(n => BehindCycle(edges, n), ids), Filter(n => BehindCycle(edges, n), ids');
    forall x ensures multiset(s)[x] == multiset(s')[x] {
      FilterMultiplicity(n => BehindCycle(edges, n), ids, x);
      FilterMultiplicity(n => BehindCycle(edges, n), ids', x);
    }
    SameSorted(s, s');
  }

  lemma SameSorted(s: seq<string>, s': seq<string>)
    requires forall x :: multiset(s)[x] == multiset(s')[x]
    ensures Sort(StringLe, s) == Sort(StringLe, s')
  {
    hide Sort, StringLe;
    assert multiset(s) == multiset(s');
    StringOrder();
    SortSorts(StringLe, s);
    SortSorts(StringLe, s');
    forall x, y | StringLe(x, y) && StringLe(y, x) ensures x == y { StringLeTotal(x, y); }
    SortedUnique(StringLe, Sort(StringLe, s), Sort(StringLe, s'));
  }

  /** Two discovery orders of the same plugins give the same answer: the same order, or the same cycle report. */
  lemma DiscoveryOrderIrrelevant(ids: seq<string>, ids': seq<string>, manifests: map<string, Ordering>, r: SortResult, r': SortResult)
    requires multiset(ids) == multiset(ids')
    requires PluginSortSpec(ids, ConstraintEdges(ids, manifests), r)
    requires PluginSortSpec(ids', ConstraintEdges(ids', manifests), r')
    ensures r == r'
  {
    MultisetMembers(ids, ids');
    assert ConstraintEdges(ids, manifests) == ConstraintEdges(ids', manifests);
    SameOutcome(ids, ids', ConstraintEdges(ids, manifests), r, r');
  }

  /** Repeating or reordering declarations, or adding declarations about absent plugins, changes neither the
      order nor the report. */
  lemma OnlyDeclaredPairsMatter(ids: seq<string>, manifests: map<string, Ordering>, manifests': map<string, Ordering>,
                                r: SortResult, r': SortResult)
    requires forall a, b :: a in ids && b in ids ==> (Declares(manifests, a, b) <==> Declares(manifests', a, b))
    requires PluginSortSpec(ids, ConstraintEdges(ids, manifests), r)
    requires PluginSortSpec(ids, ConstraintEdges(ids, manifests'), r')
    ensures r == r'
  {
    hide PluginSortSpec;
    assert ConstraintEdges(ids, manifests) == ConstraintEdges(ids, manifests');
    SameOutcome(ids, ids, ConstraintEdges(ids, manifests), r, r');
  }
}
