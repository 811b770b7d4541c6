/** The middleware registry: registration, chain assembly, and the ordering and requirement steps of
    plugin loading. */
module Registration {
  import opened Options
  import opened Sorting
  import opened Graphs
  import opened PluginOrder

  /** A validated plugin manifest. */
  datatype Manifest = Manifest(ordering: Ordering, requirements: seq<string>, capabilities: seq<string>)

  datatype AssembleResult = Assembled(chain: seq<Middleware>) | ConflictAmong(names: seq<string>)

  datatype LoadResult =
    | Loaded
    | NotAllowed
    | NotFound(id: string)
    | OrderingCycle(members: seq<string>)
    | RequirementUnmet(plugin: string, capability: string)
    | ImportFailed(id: string)

  function Orderings(names: seq<string>, factories: map<string, Middleware>): map<string, Ordering>
    requires forall n :: n in names ==> n in factories
  {
    map n | n in names :: factories[n].ordering
  }

  function ManifestOrderings(manifests: map<string, Manifest>): map<string, Ordering> {
    map id | id in manifests :: manifests[id].ordering
  }

  function Pick<T>(names: seq<string>, m: map<string, T>): map<string, T> {
    map n | n in names && n in m :: m[n]
  }

  /** The factories of the named entry points that can be imported. */
  function Importable(names: seq<string>, entryPoints: map<string, Option<Middleware>>): map<string, Middleware> {
    map n | n in names && n in entryPoints && entryPoints[n].Some? :: entryPoints[n].value
  }

  lemma ImportableSame(s: seq<string>, t: seq<string>, entryPoints: map<string, Option<Middleware>>)
    requires forall n :: n in s <==> n in t
    ensures Importable(s, entryPoints) == Importable(t, entryPoints)
  {
  }

  /** Registering one more plugin, if its name is not taken. */
  lemma RegisterNext(s: seq<string>, k: nat, entryPoints: map<string, Option<Middleware>>, before: map<string, Middleware>)
    requires k < |s| && CanImport(entryPoints, s[k])
    ensures var so, next := Importable(s[..k], entryPoints) + before, Importable(s[..k + 1], entryPoints) + before;
      next == if s[k] in so then so else so[s[k] := entryPoints[s[k]].value]
  {
    assert s[..k + 1] == s[..k] + [s[k]];
  }

  predicate CanImport(entryPoints: map<string, Option<Middleware>>, id: string) {
    id in entryPoints && entryPoints[id].Some?
  }

  /** The plugins to load: in production only allowed ones, otherwise all. */
  function ToLoad(ids: seq<string>, allowlist: Option<seq<string>>, production: bool): (r: seq<string>)
    ensures forall id :: id in r ==> id in ids
  {
    Filter(id => allowlist.None? || id in allowlist.value || !production, ids)
  }

  /** A requirement is met by a capability of a loaded plugin (other than the two behaviour flags) or by
      a loaded plugin's id. */
  ghost predicate Provided(loaded: seq<string>, manifests: map<string, Manifest>, requirement: string)
    requires forall id :: id in loaded ==> id in manifests
  {
    || requirement in loaded
    || (requirement !in {"observe_only", "may_short_circuit"}
        && exists id :: id in loaded && requirement in manifests[id].capabilities)
  }

  ghost predicate RequirementsMet(loaded: seq<string>, manifests: map<string, Manifest>)
    requires forall id :: id in loaded ==> id in manifests
  {
    forall id, r :: id in loaded && r in manifests[id].requirements ==> Provided(loaded, manifests, r)
  }

  method ProvidedCapabilities(loaded: seq<string>, manifests: map<string, Manifest>) returns (provided: set<string>)
    requires forall id :: id in loaded ==> id in manifests
    ensures forall r :: r in provided <==> Provided(loaded, manifests, r)
  {
    provided := {};
    for i := 0 to |loaded|
      invariant forall r :: r in provided <==> Provided(loaded[..i], manifests, r)
    {
      assert loaded[..i + 1] == loaded[..i] + [loaded[i]];
      var offered := set k | k in manifests[loaded[i]].capabilities && k !in {"observe_only", "may_short_circuit"};
      provided := provided + offered + {loaded[i]};
    }
    assert loaded[..|loaded|] == loaded;
  }

  /** The requirements of all plugins before it in the order are provided, and so are those the plugin lists
      before this one. */
  ghost predicate FirstUnmet(order: seq<string>, manifests: map<string, Manifest>, provided: set<string>, plugin: string, capability: string)
    requires forall id :: id in order ==> id in manifests
  {
    exists i, k :: 0 <= i < |order| && 0 <= k < |manifests[order[i]].requirements|
      && order[i] == plugin && manifests[plugin].requirements[k] == capability
      && (forall id, c :: id in order[..i] && c in manifests[id].requirements ==> c in provided)
      && (forall c :: c in manifests[plugin].requirements[..k] ==> c in provided)
  }

  /** The first unmet requirement, in loading order. */
  method CheckRequirements(order: seq<string>, manifests: map<string, Manifest>, provided: set<string>) returns (r: LoadResult)
    requires forall id :: id in order ==> id in manifests
    ensures r.Loaded? || r.RequirementUnmet?
    ensures r.Loaded? <==> forall id, c :: id in order && c in manifests[id].requirements ==> c in provided
    ensures r.RequirementUnmet? ==> r.plugin in order && r.capability in manifests[r.plugin].requirements && r.capability !in provided
    ensures r.RequirementUnmet? ==> FirstUnmet(order, manifests, provided, r.plugin, r.capability)
  {
    for i := 0 to |order|
      invariant forall id, c :: id in order[..i] && c in manifests[id].requirements ==> c in provided
    {
      assert order[..i + 1] == order[..i] + [order[i]];
      var wanted := manifests[order[i]].requirements;
      for k := 0 to |wanted|
        invariant forall c :: c in wanted[..k] ==> c in provided
      {
        if wanted[k] !in provided {
          assert FirstUnmet(order, manifests, provided, order[i], wanted[k]);
          return RequirementUnmet(order[i], wanted[k]);
        }
        assert wanted[..k + 1] == wanted[..k] + [wanted[k]];
      }
      assert wanted[..|wanted|] == wanted;
    }
    assert order[..|order|] == order;
    return Loaded;
  }

  /** What plugin resolution promises: success, with the plugin sort of the selected plugins, exactly when
      the allowlist is acceptable, every allowed id exists, the constraints have no cycle and every
      requirement is met; otherwise an error that names a real cause. */
  ghost predicate Resolution(allowlist: Option<seq<string>>, production: bool, ids: seq<string>,
                             manifests: map<string, Manifest>, r: LoadResult, order: seq<string>)
    requires forall id :: id in ids <==> id in manifests
  {
    var loaded := ToLoad(ids, allowlist, production);
    var edges := ConstraintEdges(loaded, ManifestOrderings(manifests));
    var refused := production && (allowlist.None? || allowlist.value == []);
    && (r.NotAllowed? <==> refused)
    && (r.NotFound? ==> allowlist.Some? && r.id in allowlist.value && r.id != "" && r.id !in ids)
    && (r.OrderingCycle? ==> Cyclic(edges) && r.members == Sort(StringLe, Filter(n => BehindCycle(edges, n), loaded)))
    && (r.RequirementUnmet? ==> r.plugin in loaded && r.capability in manifests[r.plugin].requirements
                                && !Provided(loaded, manifests, r.capability))
    && (r.Loaded? <==>
         && !refused
         && (allowlist.Some? ==> forall id :: id in allowlist.value && id != "" ==> id in ids)
         && !Cyclic(edges)
         && RequirementsMet(loaded, manifests))
    && (r.Loaded? ==> PluginSortSpec(loaded, edges, Sorted(order)))
  }

  // the same in terms of the manifests and the allowlist alone

  /** In production the discovered plugins on the allowlist are chosen, otherwise all discovered ones. */
  ghost predicate Chosen(allowlist: Option<seq<string>>, production: bool, ids: seq<string>, id: string) {
    id in ids && (production ==> allowlist.Some? && id in allowlist.value)
  }

  /** Either manifest says that `a` must run before `b`. */
  ghost predicate MustRunBefore(manifests: map<string, Manifest>, a: string, b: string) {
    && a in manifests && b in manifests
    && (b in manifests[a].ordering.mustRunBefore || a in manifests[b].ordering.mustRunAfter)
  }

  /** The chosen plugins, each once, in an order that breaks no manifest's constraints. */
  ghost predicate GoodOrder(allowlist: Option<seq<string>>, production: bool, ids: seq<string>,
                            manifests: map<string, Manifest>, order: seq<string>) {
    && Distinct(order)
    && (forall id :: id in order <==> Chosen(allowlist, production, ids, id))
    && (forall i, j :: 0 <= i <= j < |order| ==> !MustRunBefore(manifests, order[j], order[i]))
  }

  /** Some chosen plugin offers what is required, under its own id or as a capability other than the two flags. */
  ghost predicate Offered(allowlist: Option<seq<string>>, production: bool, ids: seq<string>,
                          manifests: map<string, Manifest>, requirement: string) {
    exists id :: Chosen(allowlist, production, ids, id) && id in manifests
      && (id == requirement
          || (requirement in manifests[id].capabilities && requirement != "observe_only" && requirement != "may_short_circuit"))
  }

  ghost predicate Requires(allowlist: Option<seq<string>>, production: bool, ids: seq<string>,
                           manifests: map<string, Manifest>, id: string, requirement: string) {
    Chosen(allowlist, production, ids, id) && id in manifests && requirement in manifests[id].requirements
  }

  /** The recorded order is the first good one; loading succeeds exactly when there is one, nothing allowed is
      missing, production has an allowlist, and every requirement is offered; and each error has its cause. */
  ghost predicate ResolvedPlainly(allowlist: Option<seq<string>>, production: bool, ids: seq<string>,
                                  manifests: map<string, Manifest>, r: LoadResult, order: seq<string>) {
    && (r.Loaded? ==> GoodOrder(allowlist, production, ids, manifests, order))
    && (r.Loaded? ==> forall q :: GoodOrder(allowlist, production, ids, manifests, q) ==> q == order || SmallerList(order, q))
    && (r.Loaded? <==>
         && !(production && (allowlist.None? || allowlist.value == []))
         && (allowlist.Some? ==> forall id :: id in allowlist.value && id != "" ==> id in ids)
         && (exists q :: GoodOrder(allowlist, production, ids, manifests, q))
         && (forall id, c :: Requires(allowlist, production, ids, manifests, id, c) ==> Offered(allowlist, production, ids, manifests, c)))
    && (r.NotAllowed? <==> production && (allowlist.None? || allowlist.value == []))
    && (r.NotFound? ==> allowlist.Some? && r.id in allowlist.value && r.id != "" && r.id !in ids)
    && (r.OrderingCycle? ==> !exists q :: GoodOrder(allowlist, production, ids, manifests, q))
    && (r.RequirementUnmet? ==> Requires(allowlist, production, ids, manifests, r.plugin, r.capability)
                                && !Offered(allowlist, production, ids, manifests, r.capability))
  }

  lemma ChosenIsToLoad(allowlist: Option<seq<string>>, production: bool, ids: seq<string>)
    requires !(production && (allowlist.None? || allowlist.value == []))
    ensures forall id :: id in ToLoad(ids, allowlist, production) <==> Chosen(allowlist, production, ids, id)
  {
    hide Filter;
  }

  /** The constraints the plugin sort works on are those of the chosen plugins' manifests. */
  lemma ManifestEdges(loaded: seq<string>, manifests: map<string, Manifest>)
    requires forall id :: id in loaded ==> id in manifests
    ensures forall a, b :: (a, b) in ConstraintEdges(loaded, ManifestOrderings(manifests)) <==>
      a in loaded && b in loaded && MustRunBefore(manifests, a, b)
  {
  }

  lemma GoodOrderIff(allowlist: Option<seq<string>>, production: bool, ids: seq<string>, manifests: map<string, Manifest>, q: seq<string>)
    requires Distinct(ids) && (forall id :: id in ids <==> id in manifests)
    requires !(production && (allowlist.None? || allowlist.value == []))
    ensures var loaded := ToLoad(ids, allowlist, production);
      GoodOrder(allowlist, production, ids, manifests, q) <==>
        Distinct(q) && TopologicalOrder(loaded, ConstraintEdges(loaded, ManifestOrderings(manifests)), q)
  {
    hide ConstraintEdges, ManifestOrderings, ToLoad, MustRunBefore, Chosen;
    var loaded := ToLoad(ids, allowlist, production);
    var edges := ConstraintEdges(loaded, ManifestOrderings(manifests));
    ChosenIsToLoad(allowlist, production, ids);
    ManifestEdges(loaded, manifests);
    ToLoadDistinct(allowlist, production, ids);
    if Distinct(q) && multiset(q) == multiset(loaded) {
      MultisetMembers(q, loaded);
      RespectsMeans(q, edges);
    }
    if GoodOrder(allowlist, production, ids, manifests, q) {
      SameMembersSameBag(q, loaded);
      RespectsMeans(q, edges);
    }
  }

  lemma RespectsMeans(q: seq<string>, edges: Edges)
    ensures Respects(edges, q) <==> forall i, j :: 0 <= i <= j < |q| ==> (q[j], q[i]) !in edges
  {
  }

  lemma SameMembersSameBag(q: seq<string>, loaded: seq<string>)
    requires Distinct(q) && Distinct(loaded) && forall id :: id in q <==> id in loaded
    ensures multiset(q) == multiset(loaded)
  {
    forall x ensures multiset(q)[x] == multiset(loaded)[x] {
      DistinctMultiplicity(q, x);
      DistinctMultiplicity(loaded, x);
    }
  }

  lemma ToLoadDistinct(allowlist: Option<seq<string>>, production: bool, ids: seq<string>)
    requires Distinct(ids)
    ensures Distinct(ToLoad(ids, allowlist, production))
  {
    FilterDistinct(id => allowlist.None? || id in allowlist.value || !production, ids);
  }

  lemma OfferedIff(allowlist: Option<seq<string>>, production: bool, ids: seq<string>, manifests: map<string, Manifest>, c: string)
    requires (forall id :: id in ids <==> id in manifests) && !(production && (allowlist.None? || allowlist.value == []))
    ensures Provided(ToLoad(ids, allowlist, production), manifests, c) <==> Offered(allowlist, production, ids, manifests, c)
  {
    hide ToLoad;
    ChosenIsToLoad(allowlist, production, ids);
    assert forall id :: Chosen(allowlist, production, ids, id) ==> id in manifests;
    hide Chosen;
  }

  /** What resolution promises says just that. */
  lemma ResolutionMeans(allowlist: Option<seq<string>>, production: bool, ids: seq<string>,
                        manifests: map<string, Manifest>, r: LoadResult, order: seq<string>)
    requires Distinct(ids) && (forall id :: id in ids <==> id in manifests)
    requires Resolution(allowlist, production, ids, manifests, r, order)
    ensures ResolvedPlainly(allowlist, production, ids, manifests, r, order)
  {
    hide ConstraintEdges, ManifestOrderings, ToLoad, Chosen, Distinct, Cyclic, BehindCycle, TopologicalOrder, LexLe, SmallerList,
      GoodOrder, Offered, Provided, Filter, Sort;
    if !(production && (allowlist.None? || allowlist.value == [])) {
      var loaded := ToLoad(ids, allowlist, production);
      var edges := ConstraintEdges(loaded, ManifestOrderings(manifests));
      ChosenIsToLoad(allowlist, production, ids);
      ToLoadDistinct(allowlist, production, ids);
      forall q ensures GoodOrder(allowlist, production, ids, manifests, q) <==> TopologicalOrder(loaded, edges, q) {
        GoodOrderIff(allowlist, production, ids, manifests, q);
        DistinctOrder(loaded, edges, q);
      }
      forall q | TopologicalOrder(loaded, edges, q) ensures !Cyclic(edges) {
        OrderedMeansAcyclic(loaded, edges, q);
      }
      forall q | r.Loaded? && TopologicalOrder(loaded, edges, q) ensures q == order || SmallerList(order, q) {
        LexLeMeans(order, q);
      }
      forall c ensures Provided(loaded, manifests, c) <==> Offered(allowlist, production, ids, manifests, c) {
        OfferedIff(allowlist, production, ids, manifests, c);
      }
      RequirementsAgree(allowlist, production, ids, manifests);
    }
  }

  lemma DistinctOrder(loaded: seq<string>, edges: Edges, q: seq<string>)
    requires Distinct(loaded)
    ensures TopologicalOrder(loaded, edges, q) ==> Distinct(q)
  {
    if TopologicalOrder(loaded, edges, q) {
      PermutationDistinct(loaded, q);
    }
  }

  lemma RequirementsAgree(allowlist: Option<seq<string>>, production: bool, ids: seq<string>, manifests: map<string, Manifest>)
    requires (forall id :: id in ids <==> id in manifests) && !(production && (allowlist.None? || allowlist.value == []))
    ensures var loaded := ToLoad(ids, allowlist, production);
      RequirementsMet(loaded, manifests) <==>
        forall id, c :: Requires(allowlist, production, ids, manifests, id, c) ==> Offered(allowlist, production, ids, manifests, c)
  {
    hide ToLoad, Provided, Offered, Chosen;
    var loaded := ToLoad(ids, allowlist, production);
    ChosenIsToLoad(allowlist, production, ids);
    forall c ensures Provided(loaded, manifests, c) <==> Offered(allowlist, production, ids, manifests, c) {
      OfferedIff(allowlist, production, ids, manifests, c);
    }
    if forall id, c :: Requires(allowlist, production, ids, manifests, id, c) ==> Offered(allowlist, production, ids, manifests, c) {
      forall id, c | id in loaded && c in manifests[id].requirements ensures Provided(loaded, manifests, c) {
        assert Requires(allowlist, production, ids, manifests, id, c);
      }
    }
  }

  /** The steps between discovery and registration. */
  method ResolvePlugins(allowlist: Option<seq<string>>, production: bool, ids: seq<string>, manifests: map<string, Manifest>)
    returns (r: LoadResult, order: seq<string>)
    requires Distinct(ids) && forall id :: id in ids <==> id in manifests
    ensures Resolution(allowlist, production, ids, manifests, r, order)
    ensures !r.Loaded? ==> order == []
    ensures r.Loaded? ==> forall id :: id in order <==> id in ToLoad(ids, allowlist, production)
  {
    hide Filter, Sort, Cyclic, BehindCycle, Distinct, ConstraintEdges, LexLe, Respects, FirstUnmet;
    order := [];
    if production && (allowlist.None? || allowlist.value == []) {
      return NotAllowed, [];
    }
    if allowlist.Some? {
      var missing := Filter(id => id != "" && id !in manifests, allowlist.value);
      if missing != [] {
        assert missing[0] in missing;
        return NotFound(missing[0]), [];
      }
      assert forall id :: id in allowlist.value && id != "" && id !in manifests ==> id in missing;
    }
    var loaded := ToLoad(ids, allowlist, production);
    FilterDistinct(id => allowlist.None? || id in allowlist.value || !production, ids);
    var sorted := ToposortPlugins(loaded, ManifestOrderings(manifests));
    if sorted.CycleAmong? {
      return OrderingCycle(sorted.members), [];
    }
    MultisetMembers(sorted.order, loaded);
    var provided := ProvidedCapabilities(loaded, manifests);
    r := CheckRequirements(sorted.order, manifests, provided);
    if r.Loaded? {
      order := sorted.order;
    }
  }

  function InMap(factories: map<string, Middleware>): string -> bool {
    n => n in factories
  }

  function Registered(factories: map<string, Middleware>, order: seq<string>): (r: seq<string>)
    ensures forall n :: n in r ==> n in factories
  {
    Filter(InMap(factories), order)
  }

  ghost predicate Instances(factories: map<string, Middleware>, names: seq<string>, chain: seq<Middleware>) {
    |names| == |chain| && forall i :: 0 <= i < |names| ==> names[i] in factories && chain[i] == factories[names[i]]
  }

  ghost predicate FollowsSort(factories: map<string, Middleware>, sorted: SortResult, r: AssembleResult) {
    match sorted
    case Sorted(names) => r.Assembled? && Instances(factories, names, r.chain)
    case CycleAmong(members) => r == ConflictAmong(members)
  }

  /** Every constraint among the names holds in the chain; they are refused exactly when their constraints
      have a cycle. */
  ghost predicate InOrder(factories: map<string, Middleware>, present: seq<string>, edges: Edges, r: AssembleResult) {
    && (r.Assembled? <==> !Cyclic(edges))
    && (r.Assembled? ==> exists names :: TopologicalOrder(present, edges, names) && Instances(factories, names, r.chain))
    && (r.ConflictAmong? ==> r.names == Filter(n => BehindCycle(edges, n), present))
  }

  lemma SortedMembers(names: seq<string>, edges: Edges, r: SortResult)
    requires SortOutcome(names, edges, r) && r.Sorted?
    ensures forall n :: n in r.order ==> n in names
  {
    hide TopologicalSortSpec, MostKept, RepeatedAreFree;
    MultisetMembers(r.order, names);
  }

  lemma SortedInOrder(factories: map<string, Middleware>, present: seq<string>, edges: Edges, sorted: SortResult, r: AssembleResult)
    requires Distinct(present) && SortOutcome(present, edges, sorted) && FollowsSort(factories, sorted, r)
    ensures InOrder(factories, present, edges, r)
  {
    hide MostKept, RepeatedAreFree, Cyclic, BehindCycle, TopologicalOrder, Instances, Filter, Distinct;
  }

  // the same in terms of the registered middlewares alone

  ghost predicate RunsBefore(factories: map<string, Middleware>, a: string, b: string) {
    && a in factories && b in factories
    && (b in factories[a].ordering.mustRunBefore || a in factories[b].ordering.mustRunAfter)
  }

  /** The registered ones of the requested names, as often as they are requested. */
  ghost predicate Requested(factories: map<string, Middleware>, order: seq<string>, names: seq<string>) {
    forall n :: multiset(names)[n] == if n in factories then multiset(order)[n] else 0
  }

  ghost predicate NoneTooEarly(factories: map<string, Middleware>, names: seq<string>) {
    forall i, j :: 0 <= i <= j < |names| ==> !RunsBefore(factories, names[j], names[i])
  }

  /** The chain holds the instances of the registered requested names. For distinct names no constraint is
      broken, and the only reason to refuse is that there is no such order. */
  ghost predicate AssembledPlainly(factories: map<string, Middleware>, order: seq<string>, r: AssembleResult) {
    && (r.Assembled? ==> exists names ::
          && Requested(factories, order, names) && Instances(factories, names, r.chain)
          && (Distinct(order) ==> NoneTooEarly(factories, names)))
    && (r.ConflictAmong? && Distinct(order) ==>
          !exists names :: Requested(factories, order, names) && NoneTooEarly(factories, names))
    && (r.ConflictAmong? ==> forall n :: n in r.names ==> n in order && n in factories)
  }

  lemma RegisteredCount(factories: map<string, Middleware>, order: seq<string>)
    ensures Requested(factories, order, Registered(factories, order))
  {
    hide Filter;
    forall n ensures multiset(Registered(factories, order))[n] == if n in factories then multiset(order)[n] else 0 {
      FilterMultiplicity(InMap(factories), order, n);
    }
  }

  lemma RegisteredDistinct(factories: map<string, Middleware>, order: seq<string>)
    ensures Distinct(order) ==> Distinct(Registered(factories, order))
  {
    hide Filter, Distinct;
    if Distinct(order) {
      FilterDistinct(InMap(factories), order);
    }
  }

  lemma RequestedBag(factories: map<string, Middleware>, order: seq<string>, s: seq<string>, t: seq<string>)
    requires Requested(factories, order, s)
    ensures Requested(factories, order, t) <==> multiset(s) == multiset(t)
  {
    if Requested(factories, order, t) {
      forall n ensures multiset(s)[n] == multiset(t)[n] {
      }
    }
  }

  /** A report names names of the list. */
  lemma ReportAmong(names: seq<string>, constraints: map<string, Ordering>)
    requires forall n :: n in names ==> n in constraints
    ensures var r := Arranged(names, constraints); r.CycleAmong? ==> forall n :: n in r.members ==> n in names
  {
    hide Order, Successors, Degrees, Roots, Sort, Filter;
    AllWired(names, constraints);
  }

  lemma NoneTooEarlyIff(factories: map<string, Middleware>, order: seq<string>, edges: Edges, names: seq<string>)
    requires forall n :: n in names ==> n in order && n in factories
    requires forall a, b :: (a, b) in edges <==> a in order && b in order && RunsBefore(factories, a, b)
    ensures NoneTooEarly(factories, names) <==> Respects(edges, names)
  {
    hide RunsBefore;
    assert forall i :: 0 <= i < |names| ==> names[i] in names;
    RespectsMeans(names, edges);
  }

  /** The constraints the middleware sort works on are those of the registered middlewares. */
  lemma MiddlewareEdges(factories: map<string, Middleware>, order: seq<string>)
    ensures var present := Registered(factories, order);
      forall a, b :: (a, b) in ConstraintEdges(present, Orderings(present, factories)) <==>
        a in order && b in order && RunsBefore(factories, a, b)
  {
    hide Filter;
  }

  lemma FollowsPlainly(factories: map<string, Middleware>, order: seq<string>, sorted: SortResult, r: AssembleResult)
    requires var present := Registered(factories, order);
      SortOutcome(present, ConstraintEdges(present, Orderings(present, factories)), sorted)
    requires sorted == Arranged(Registered(factories, order), Orderings(Registered(factories, order), factories))
    requires FollowsSort(factories, sorted, r)
    ensures AssembledPlainly(factories, order, r)
  {
    hide Filter, Arranged, ConstraintEdges, Registered, Cyclic, BehindCycle, Distinct, MostKept, RepeatedAreFree, Instances, Respects;
    var present := Registered(factories, order);
    var edges := ConstraintEdges(present, Orderings(present, factories));
    RegisteredCount(factories, order);
    MiddlewareEdges(factories, order);
    RegisteredDistinct(factories, order);
    ReportAmong(present, Orderings(present, factories));
    RegisteredMembers(factories, order);
    if r.Assembled? {
      RequestedBag(factories, order, present, sorted.order);
      MultisetMembers(present, sorted.order);
      NoneTooEarlyIff(factories, order, edges, sorted.order);
    } else if Distinct(order) {
      forall names | Requested(factories, order, names) ensures !NoneTooEarly(factories, names) {
        RequestedBag(factories, order, present, names);
        MultisetMembers(present, names);
        NoneTooEarlyIff(factories, order, edges, names);
        if Respects(edges, names) {
          OrderedMeansAcyclic(present, edges, names);
        }
      }
    }
  }

  lemma RegisteredMembers(factories: map<string, Middleware>, order: seq<string>)
    ensures forall n :: n in Registered(factories, order) <==> n in order && n in factories
  {
    hide Filter;
  }

  class MiddlewareRegistry {
    var factories: map<string, Middleware>
    var loadedManifests: map<string, Manifest>
    var resolvedOrder: Option<seq<string>>

    constructor ()
      ensures factories == map[] && loadedManifests == map[] && resolvedOrder == None
    {
      factories, loadedManifests, resolvedOrder := map[], map[], None;
    }

    /** A name can be registered once. */
    method Register(name: string, factory: Middleware) returns (ok: bool)
      modifies this`factories
      ensures ok <==> name !in old(factories)
      ensures factories == if ok then old(factories)[name := factory] else old(factories)
    {
      ok := name !in factories;
      if ok {
        factories := factories[name := factory];
      }
    }

    /** The registered ones of the requested names, arranged by the middleware sort. When no name is
        requested twice, every constraint among them holds, and they are refused exactly when their
        constraints have a cycle. */
    method Assemble(order: seq<string>) returns (r: AssembleResult)
      ensures var present := Registered(factories, order);
        && FollowsSort(factories, Arranged(present, Orderings(present, factories)), r)
        && (Distinct(order) ==> InOrder(factories, present, ConstraintEdges(present, Orderings(present, factories)), r))
      ensures AssembledPlainly(factories, order, r)
    {
      hide Filter, Arranged, SortOutcome, InOrder, ConstraintEdges, AssembledPlainly;
      var present := Registered(factories, order);
      ghost var edges := ConstraintEdges(present, Orderings(present, factories));
      var sorted := TopologicalSort(present, Orderings(present, factories));
      match sorted {
        case CycleAmong(conflict) => r := ConflictAmong(conflict);
        case Sorted(arranged) =>
          SortedMembers(present, edges, sorted);
          var known := factories;
          r := Assembled(seq(|arranged|, i requires 0 <= i < |arranged| && arranged[i] in known => known[arranged[i]]));
          assert Instances(factories, arranged, r.chain);
      }
      if Distinct(order) {
        FilterDistinct(InMap(factories), order);
        SortedInOrder(factories, present, edges, sorted, r);
      }
      FollowsPlainly(factories, order, sorted, r);
    }

    /** Import the plugins in turn and register those that are not registered yet, up to the first one whose
        import raises. */
    method RegisterAll(order: seq<string>, entryPoints: map<string, Option<Middleware>>) returns (count: nat)
      requires forall id :: id in order ==> id in entryPoints
      modifies this`factories
      ensures count <= |order| && factories == Importable(order[..count], entryPoints) + old(factories)
      ensures count < |order| ==> StoppedAt(order, entryPoints, count)
      ensures count == |order| ==> forall id :: id in order ==> CanImport(entryPoints, id)
    {
      hide Importable;
      count := 0;
      NothingImportable(order, entryPoints);
      while count < |order|
        invariant count <= |order| && factories == Importable(order[..count], entryPoints) + old(factories)
        invariant forall id :: id in order[..count] ==> CanImport(entryPoints, id)
      {
        var factory := entryPoints[order[count]];
        if factory.None? {
          return;
        }
        RegisterNext(order, count, entryPoints, old(factories));
        assert order[..count + 1] == order[..count] + [order[count]];
        if order[count] !in factories {
          factories := factories[order[count] := factory.value];
        }
        count := count + 1;
      }
      assert order[..count] == order;
    }

    /** When plugin resolution fails the registry is unchanged. When it succeeds and every selected plugin can
        be imported, these are registered and their order recorded. Otherwise the plugins before the first
        one that cannot be imported stay registered, and nothing else is recorded. */
    method LoadPlugins(allowlist: Option<seq<string>>, production: bool, noDiscovery: bool,
                       ids: seq<string>, manifests: map<string, Manifest>, entryPoints: map<string, Option<Middleware>>)
      returns (r: LoadResult, ghost resolved: LoadResult, ghost order: seq<string>)
      requires Distinct(ids) && forall id :: id in ids <==> id in manifests
      requires manifests.Keys == entryPoints.Keys
      modifies this
      ensures noDiscovery ==> r.Loaded? && resolvedOrder == Some([]) && factories == old(factories)
      ensures !noDiscovery ==> Resolution(allowlist, production, ids, manifests, resolved, order)
      ensures !noDiscovery ==> ResolvedPlainly(allowlist, production, ids, manifests, resolved, order)
      ensures !noDiscovery && !resolved.Loaded? ==> r == resolved && factories == old(factories)
      ensures !noDiscovery && resolved.Loaded? ==>
        Registering(ToLoad(ids, allowlist, production), order, entryPoints, old(factories), factories, r)
      ensures !r.Loaded? ==> loadedManifests == old(loadedManifests) && resolvedOrder == old(resolvedOrder)
      ensures !noDiscovery && r.Loaded? ==>
        resolvedOrder == Some(order) && loadedManifests == Pick(ToLoad(ids, allowlist, production), manifests)
      ensures !noDiscovery && r.Loaded? ==> AllRegistered(order, manifests, entryPoints, old(factories), factories, loadedManifests)
    {
      hide Resolution, ResolvedPlainly, ToLoad, Pick, Importable, Distinct, AllRegistered;
      if noDiscovery {
        resolvedOrder := Some([]);
        return Loaded, Loaded, [];
      }
      var sorted;
      r, sorted := ResolvePlugins(allowlist, production, ids, manifests);
      resolved, order := r, sorted;
      ResolutionMeans(allowlist, production, ids, manifests, r, sorted);
      if !r.Loaded? {
        return;
      }
      var loaded := ToLoad(ids, allowlist, production);
      var count := RegisterAll(sorted, entryPoints);
      if count < |sorted| {
        assert sorted[count] in loaded && !CanImport(entryPoints, sorted[count]);
        r := ImportFailed(sorted[count]);
        return;
      }
      assert sorted[..count] == sorted;
      ImportableSame(sorted, loaded, entryPoints);
      loadedManifests := Pick(loaded, manifests);
      resolvedOrder := Some(sorted);
      RegisteredAll(sorted, loaded, manifests, entryPoints, old(factories));
    }
  }

  /** The plugins of the order are registered beside what was registered before, which wins, and their
      manifests are recorded. */
  ghost predicate AllRegistered(order: seq<string>, manifests: map<string, Manifest>, entryPoints: map<string, Option<Middleware>>,
                                before: map<string, Middleware>, after: map<string, Middleware>, recorded: map<string, Manifest>) {
    && (forall n :: n in after <==> n in before || n in order)
    && (forall n :: n in before ==> n in after && after[n] == before[n])
    && (forall n :: n in order && n !in before ==> n in entryPoints && n in after && entryPoints[n] == Some(after[n]))
    && (forall n :: n in recorded <==> n in order)
    && (forall n :: n in order ==> n in manifests && n in recorded && recorded[n] == manifests[n])
  }

  lemma RegisteredAll(order: seq<string>, loaded: seq<string>, manifests: map<string, Manifest>,
                      entryPoints: map<string, Option<Middleware>>, before: map<string, Middleware>)
    requires forall n :: n in order <==> n in loaded
    requires forall n :: n in order ==> n in manifests && CanImport(entryPoints, n)
    ensures AllRegistered(order, manifests, entryPoints, before, Importable(order, entryPoints) + before, Pick(loaded, manifests))
  {
  }

  /** What registering the selected plugins in `order` did: all of them, exactly when all can be imported;
      otherwise those before the first one that cannot. */
  ghost predicate Registering(selected: seq<string>, order: seq<string>, entryPoints: map<string, Option<Middleware>>,
                              before: map<string, Middleware>, after: map<string, Middleware>, r: LoadResult) {
    && (r.Loaded? <==> forall id :: id in selected ==> CanImport(entryPoints, id))
    && (r.Loaded? ==> after == Importable(selected, entryPoints) + before)
    && (!r.Loaded? ==> exists count: nat :: StoppedAt(order, entryPoints, count) && r == ImportFailed(order[count])
                                       && after == Importable(order[..count], entryPoints) + before)
  }

  lemma NothingImportable(order: seq<string>, entryPoints: map<string, Option<Middleware>>)
    ensures Importable(order[..0], entryPoints) == map[]
  {
  }

  /** The first place of the order whose plugin cannot be imported. */
  ghost predicate StoppedAt(order: seq<string>, entryPoints: map<string, Option<Middleware>>, count: nat) {
    && count < |order| && !CanImport(entryPoints, order[count])
    && forall id :: id in order[..count] ==> CanImport(entryPoints, id)
  }
}
