/** Inserting plugin middlewares into an existing chain, one at a time, by their ordering constraints. */
module DefaultChain {
  import opened Sorting
  import opened Graphs
  import opened PluginOrder

  /** `small` is obtained from `large` by leaving elements out. */
  ghost predicate Subsequence<T>(small: seq<T>, large: seq<T>) {
    small == [] || (large != [] && (if small[0] == large[0] then Subsequence(small[1..], large[1..]) || Subsequence(small, large[1..])
                                    else Subsequence(small, large[1..])))
  }

  /** Placed at `p`, the plugin is before everything it must precede, and after everything it must follow
      and everything that must precede it. These are the constraints the insertion consults. */
  ghost predicate FitsAt(chain: seq<Middleware>, mw: Middleware, p: nat) {
    && p <= |chain|
    && (forall i :: 0 <= i < p ==> chain[i].name !in mw.ordering.mustRunBefore)
    && (forall j :: p <= j < |chain| ==>
          chain[j].name !in mw.ordering.mustRunAfter && mw.name !in chain[j].ordering.mustRunBefore)
  }

  function InsertAt(chain: seq<Middleware>, mw: Middleware, p: nat): seq<Middleware>
    requires p <= |chain|
  {
    chain[..p] + [mw] + chain[p..]
  }

  /** Index of the first member the plugin must precede, the chain's length if there is none. */
  function LatestOk(chain: seq<Middleware>, mw: Middleware): nat {
    if chain == [] || chain[0].name in mw.ordering.mustRunBefore then 0 else 1 + LatestOk(chain[1..], mw)
  }

  /** One past the last member that must precede the plugin, by either party's declaration. */
  function EarliestOk(chain: seq<Middleware>, mw: Middleware): nat {
    if chain == [] then 0
    else
      var last := chain[|chain| - 1];
      if last.name in mw.ordering.mustRunAfter || mw.name in last.ordering.mustRunBefore then |chain|
      else EarliestOk(chain[..|chain| - 1], mw)
  }

  /** Without a member to precede, append; otherwise as early as allowed, but never past that member. */
  function Position(chain: seq<Middleware>, mw: Middleware): nat {
    var latest, earliest := LatestOk(chain, mw), EarliestOk(chain, mw);
    if latest == |chain| then |chain| else if earliest > latest then latest else earliest
  }

  lemma {:induction false} LatestOkBounds(chain: seq<Middleware>, mw: Middleware)
    ensures var k := LatestOk(chain, mw);
      && k <= |chain| && (k < |chain| ==> chain[k].name in mw.ordering.mustRunBefore)
      && forall i :: 0 <= i < k ==> chain[i].name !in mw.ordering.mustRunBefore
  {
    if chain != [] && chain[0].name !in mw.ordering.mustRunBefore {
      LatestOkBounds(chain[1..], mw);
      forall i | 0 <= i < LatestOk(chain, mw) ensures chain[i].name !in mw.ordering.mustRunBefore {
        if i > 0 { assert chain[i] == chain[1..][i - 1]; }
      }
    }
  }

  ghost predicate MustPrecede(member: Middleware, mw: Middleware) {
    member.name in mw.ordering.mustRunAfter || mw.name in member.ordering.mustRunBefore
  }

  lemma {:induction false} EarliestOkBounds(chain: seq<Middleware>, mw: Middleware)
    ensures var k := EarliestOk(chain, mw);
      && k <= |chain| && (k > 0 ==> MustPrecede(chain[k - 1], mw))
      && forall j :: k <= j < |chain| ==> !MustPrecede(chain[j], mw)
  {
    if chain != [] && !MustPrecede(chain[|chain| - 1], mw) {
      EarliestOkBounds(chain[..|chain| - 1], mw);
    }
  }

  /** The position chosen fits whenever any position does; among the fitting ones it is the earliest if
      the plugin must precede some member, and the end of the chain otherwise. What the plugin itself
      must precede stays behind it in every case. */
  lemma PositionFits(chain: seq<Middleware>, mw: Middleware)
    ensures var p := Position(chain, mw);
      && p <= |chain|
      && (FitsAt(chain, mw, p) <==> exists q :: FitsAt(chain, mw, q))
      && (forall i :: 0 <= i < p ==> chain[i].name !in mw.ordering.mustRunBefore)
      && ((exists m :: m in chain && m.name in mw.ordering.mustRunBefore) ==> forall q :: FitsAt(chain, mw, q) ==> p <= q)
      && ((forall m :: m in chain ==> m.name !in mw.ordering.mustRunBefore) ==> p == |chain|)
  {
    LatestOkBounds(chain, mw);
    EarliestOkBounds(chain, mw);
    var p, latest, earliest := Position(chain, mw), LatestOk(chain, mw), EarliestOk(chain, mw);
    assert earliest > 0 ==> MustPrecede(chain[earliest - 1], mw);
    forall q | FitsAt(chain, mw, q) ensures earliest <= q <= latest && FitsAt(chain, mw, p) {
    }
    if latest == |chain| {
      forall m | m in chain ensures m.name !in mw.ordering.mustRunBefore { }
      assert FitsAt(chain, mw, p);
    } else {
      assert chain[latest] in chain;
    }
  }

  // ---------------------------------------------------------------- the whole extension

  function Extend(base: seq<Middleware>, plugins: seq<Middleware>): seq<Middleware> {
    if plugins == [] then base
    else
      var chain, mw := Extend(base, plugins[..|plugins| - 1]), plugins[|plugins| - 1];
      PositionFits(chain, mw);
      InsertAt(chain, mw, Position(chain, mw))
  }

  method ChoosePosition(chain: seq<Middleware>, mw: Middleware) returns (insertAt: nat)
    ensures insertAt == Position(chain, mw) && insertAt <= |chain|
  {
    LatestOkBounds(chain, mw);
    EarliestOkBounds(chain, mw);
    var latestOk := |chain|;
    for i := 0 to |chain|
      invariant latestOk == |chain|
      invariant forall k :: 0 <= k < i ==> chain[k].name !in mw.ordering.mustRunBefore
    {
      if chain[i].name in mw.ordering.mustRunBefore {
        latestOk := i;
        break;
      }
    }
    assert latestOk == LatestOk(chain, mw);
    var earliestOk := 0;
    for i := 0 to |chain|
      invariant earliestOk == EarliestOk(chain[..i], mw)
    {
      assert chain[..i + 1][..i] == chain[..i] && chain[..i + 1][i] == chain[i];
      EarliestOkBounds(chain[..i], mw);
      if chain[i].name in mw.ordering.mustRunAfter {
        earliestOk := i + 1;
      }
      if mw.name in chain[i].ordering.mustRunBefore {
        earliestOk := if earliestOk >= i + 1 then earliestOk else i + 1;
      }
    }
    assert chain[..|chain|] == chain;
    if latestOk < |chain| {
      insertAt := earliestOk;
      if insertAt > latestOk {
        insertAt := latestOk;
      }
    } else {
      insertAt := |chain|;
    }
  }

  method ExtendPipeline(base: seq<Middleware>, resolvedOrder: seq<string>, factories: map<string, Middleware>)
    returns (chain: seq<Middleware>)
    requires forall id :: id in resolvedOrder ==> id in factories
    ensures chain == Extend(base, seq(|resolvedOrder|, i requires 0 <= i < |resolvedOrder| => factories[resolvedOrder[i]]))
  {
    ghost var plugins := seq(|resolvedOrder|, i requires 0 <= i < |resolvedOrder| => factories[resolvedOrder[i]]);
    chain := base;
    for k := 0 to |resolvedOrder|
      invariant chain == Extend(base, plugins[..k])
    {
      assert plugins[..k + 1][..k] == plugins[..k];
      var mw := factories[resolvedOrder[k]];
      var p := ChoosePosition(chain, mw);
      chain := chain[..p] + [mw] + chain[p..];
    }
    assert plugins[..|resolvedOrder|] == plugins;
  }

  // ---------------------------------------------------------------- what the extension preserves

  lemma {:induction false} SubsequenceRefl<T>(s: seq<T>)
    ensures Subsequence(s, s)
  {
    if s != [] { SubsequenceRefl(s[1..]); }
  }

  lemma {:induction false} SubsequenceInsert<T>(small: seq<T>, large: seq<T>, x: T, p: nat)
    requires Subsequence(small, large) && p <= |large|
    ensures Subsequence(small, large[..p] + [x] + large[p..])
  {
    var r := large[..p] + [x] + large[p..];
    if small != [] {
      if p == 0 {
        assert r[1..] == large;
      } else {
        assert r[0] == large[0];
        assert r[1..] == large[1..][..p - 1] + [x] + large[1..][p - 1..];
        if small[0] == large[0] && Subsequence(small[1..], large[1..]) {
          SubsequenceInsert(small[1..], large[1..], x, p - 1);
        } else {
          SubsequenceInsert(small, large[1..], x, p - 1);
        }
      }
    }
  }

  /** The base chain keeps its order and nothing is lost or invented. */
  lemma {:induction false} ExtendKeepsBase(base: seq<Middleware>, plugins: seq<Middleware>)
    ensures Subsequence(base, Extend(base, plugins))
    ensures multiset(Extend(base, plugins)) == multiset(base) + multiset(plugins)
  {
    hide Position, Extend, FitsAt, InsertAt, Subsequence;
    if plugins == [] {
      ExtendNothing(base);
      SubsequenceRefl(base);
    } else {
      var init, mw := plugins[..|plugins| - 1], plugins[|plugins| - 1];
      assert plugins[..|plugins| - 1 + 1] == plugins;
      ExtendNext(base, plugins, |plugins| - 1);
      var chain := Extend(base, init);
      ExtendKeepsBase(base, init);
      SubsequenceInsert(base, chain, mw, Position(chain, mw));
      InsertMultiset(chain, mw, Position(chain, mw));
      assert multiset(plugins) == multiset(init) + multiset{mw} by { assert plugins == init + [mw]; }
    }
  }

  lemma ExtendNothing(base: seq<Middleware>)
    ensures Extend(base, []) == base
  {
  }

  lemma ExtendNext(base: seq<Middleware>, plugins: seq<Middleware>, k: nat)
    requires k < |plugins|
    ensures var chain := Extend(base, plugins[..k]);
      var p := Position(chain, plugins[k]);
      && p <= |chain| && Extend(base, plugins[..k + 1]) == InsertAt(chain, plugins[k], p)
      && InsertAt(chain, plugins[k], p) == chain[..p] + [plugins[k]] + chain[p..]
  {
    PositionFits(Extend(base, plugins[..k]), plugins[k]);
    assert plugins[..k + 1][..k] == plugins[..k];
  }

  lemma InsertMultiset(chain: seq<Middleware>, mw: Middleware, p: nat)
    requires p <= |chain|
    ensures multiset(InsertAt(chain, mw, p)) == multiset(chain) + multiset{mw}
  {
    assert chain == chain[..p] + chain[p..];
  }

  /** No two members of the chain stand in the wrong order by either one's declaration. */
  ghost predicate Ordered(chain: seq<Middleware>) {
    forall i, j :: 0 <= i < j < |chain| ==>
      chain[i].name !in chain[j].ordering.mustRunBefore && chain[j].name !in chain[i].ordering.mustRunAfter
  }

  /** No member placed before `p` must run after the plugin: the one kind of constraint not consulted. */
  ghost predicate NoneWaits(chain: seq<Middleware>, mw: Middleware, p: nat) {
    forall i :: 0 <= i < p && i < |chain| ==> mw.name !in chain[i].ordering.mustRunAfter
  }

  lemma InsertedAt(chain: seq<Middleware>, mw: Middleware, p: nat)
    requires p <= |chain|
    ensures var r := InsertAt(chain, mw, p);
      && |r| == |chain| + 1 && r[p] == mw
      && (forall i :: 0 <= i < p ==> r[i] == chain[i])
      && (forall i :: p <= i < |chain| ==> r[i + 1] == chain[i])
  {
  }

  lemma OrderedBefore(chain: seq<Middleware>, mw: Middleware, p: nat)
    requires p <= |chain| && Ordered(InsertAt(chain, mw, p))
    ensures Ordered(chain) && FitsAt(chain, mw, p) && NoneWaits(chain, mw, p)
  {
    hide InsertAt;
    var r := InsertAt(chain, mw, p);
    InsertedAt(chain, mw, p);
    forall i, j | 0 <= i < j < |chain|
      ensures chain[i].name !in chain[j].ordering.mustRunBefore && chain[j].name !in chain[i].ordering.mustRunAfter
    {
      var a, b := if i < p then i else i + 1, if j < p then j else j + 1;
      assert r[a] == chain[i] && r[b] == chain[j];
    }
    forall j | p <= j < |chain|
      ensures chain[j].name !in mw.ordering.mustRunAfter && mw.name !in chain[j].ordering.mustRunBefore
    {
      assert r[j + 1] == chain[j];
    }
  }

  lemma OrderedAfter(chain: seq<Middleware>, mw: Middleware, p: nat)
    requires p <= |chain| && Ordered(chain) && FitsAt(chain, mw, p) && NoneWaits(chain, mw, p)
    ensures Ordered(InsertAt(chain, mw, p))
  {
    hide InsertAt;
    var r := InsertAt(chain, mw, p);
    InsertedAt(chain, mw, p);
    forall i, j | 0 <= i < j < |r|
      ensures r[i].name !in r[j].ordering.mustRunBefore && r[j].name !in r[i].ordering.mustRunAfter
    {
      var a, b := if i < p then i else i - 1, if j < p then j else j - 1;
      assert i != p ==> r[i] == chain[a];
      assert j != p ==> r[j] == chain[b];
    }
  }

  lemma InsertOrdered(chain: seq<Middleware>, mw: Middleware, p: nat)
    requires p <= |chain|
    ensures Ordered(InsertAt(chain, mw, p)) <==> Ordered(chain) && FitsAt(chain, mw, p) && NoneWaits(chain, mw, p)
  {
    hide Ordered, InsertAt, FitsAt, NoneWaits;
    if Ordered(InsertAt(chain, mw, p)) {
      OrderedBefore(chain, mw, p);
    } else if Ordered(chain) && FitsAt(chain, mw, p) && NoneWaits(chain, mw, p) {
      OrderedAfter(chain, mw, p);
    }
  }

  /** Every insertion found a fitting position (was not clamped). */
  ghost predicate NeverClamped(base: seq<Middleware>, plugins: seq<Middleware>) {
    forall k :: 0 <= k < |plugins| ==> Fits(Extend(base, plugins[..k]), plugins[k])
  }

  ghost predicate Fits(chain: seq<Middleware>, mw: Middleware) {
    exists p :: FitsAt(chain, mw, p)
  }

  ghost predicate NeverWaits(base: seq<Middleware>, plugins: seq<Middleware>) {
    forall k :: 0 <= k < |plugins| ==>
      var chain := Extend(base, plugins[..k]); NoneWaits(chain, plugins[k], Position(chain, plugins[k]))
  }

  lemma OneMorePlugin(base: seq<Middleware>, init: seq<Middleware>, mw: Middleware)
    ensures var chain := Extend(base, init);
      && (NeverClamped(base, init + [mw]) <==> NeverClamped(base, init) && Fits(chain, mw))
      && (NeverWaits(base, init + [mw]) <==> NeverWaits(base, init) && NoneWaits(chain, mw, Position(chain, mw)))
  {
    hide Extend;
    var plugins := init + [mw];
    assert plugins[..|init|] == init && plugins[|init|] == mw;
    assert forall k :: 0 <= k < |init| ==> init[..k] == plugins[..k] && init[k] == plugins[k];
  }

  /** The final chain satisfies every declared constraint exactly when the base did, no insertion was
      clamped, and no plugin was put behind a member that must run after it. */
  lemma {:induction false} ExtendedChainOrdered(base: seq<Middleware>, plugins: seq<Middleware>)
    ensures Ordered(Extend(base, plugins)) <==> Ordered(base) && NeverClamped(base, plugins) && NeverWaits(base, plugins)
  {
    if plugins != [] {
      var init, mw := plugins[..|plugins| - 1], plugins[|plugins| - 1];
      var chain := Extend(base, init);
      ExtendedChainOrdered(base, init);
      assert plugins == init + [mw];
      OneMorePlugin(base, init, mw);
      PositionFits(chain, mw);
      InsertOrdered(chain, mw, Position(chain, mw));
      hide Ordered, NeverClamped, NeverWaits, FitsAt;
    }
  }

  lemma {:induction false} ExtendMembers(base: seq<Middleware>, plugins: seq<Middleware>)
    ensures forall m :: m in Extend(base, plugins) ==> m in base || m in plugins
  {
    ExtendKeepsBase(base, plugins);
    forall m | m in Extend(base, plugins) ensures m in base || m in plugins {
      assert m in multiset(Extend(base, plugins));
    }
  }

  // ---------------------------------------------------------------- the constraints an insertion consults

  /** Nothing the insertions consult is violated between places i < j where one holds a plugin: neither
      party's must_run_before, nor a plugin's must_run_after. */
  ghost predicate PairMet(chain: seq<Middleware>, plugins: seq<Middleware>, i: nat, j: nat)
    requires i < j < |chain|
  {
    chain[i] in plugins || chain[j] in plugins ==>
      && chain[i].name !in chain[j].ordering.mustRunBefore
      && (chain[i] in plugins ==> chain[j].name !in chain[i].ordering.mustRunAfter)
  }

  ghost predicate ConsultedMet(chain: seq<Middleware>, plugins: seq<Middleware>) {
    forall i, j :: 0 <= i < j < |chain| ==> PairMet(chain, plugins, i, j)
  }

  /** No member of the base is one of the plugins; it may carry a plugin's name. */
  ghost predicate Apart(base: seq<Middleware>, plugins: seq<Middleware>) {
    forall b :: b in base ==> b !in plugins
  }

  /** One insertion at a fitting place, of a plugin that no earlier one must follow. */
  lemma InsertConsulted(chain: seq<Middleware>, plugins: seq<Middleware>, mw: Middleware, p: nat)
    requires ConsultedMet(chain, plugins) && FitsAt(chain, mw, p) && mw in plugins
    requires forall m :: m in chain && m in plugins ==> mw.name !in m.ordering.mustRunAfter
    ensures ConsultedMet(InsertAt(chain, mw, p), plugins)
  {
    hide InsertAt;
    var r := InsertAt(chain, mw, p);
    InsertedAt(chain, mw, p);
    forall i, j | 0 <= i < j < |r| ensures PairMet(r, plugins, i, j) {
      var a, b := if i < p then i else i - 1, if j < p then j else j - 1;
      assert i != p ==> r[i] == chain[a] && chain[a] in chain;
      assert j != p ==> r[j] == chain[b] && chain[b] in chain;
      if i != p && j != p {
        assert PairMet(chain, plugins, a, b);
      }
    }
  }

  /** Plugins in an order that respects their own constraints, none of them clamped: whatever the base asks
      for, every constraint the insertions consult holds in the final chain. */
  lemma {:induction false} ConsultedConstraintsMet(base: seq<Middleware>, plugins: seq<Middleware>, k: nat)
    requires k <= |plugins| && Ordered(plugins) && NeverClamped(base, plugins) && Apart(base, plugins)
    ensures ConsultedMet(Extend(base, plugins[..k]), plugins)
  {
    hide Extend, Position, FitsAt, ConsultedMet, Ordered, Apart;
    if k == 0 {
      BaseConsulted(base, plugins);
    } else {
      var chain, mw := Extend(base, plugins[..k - 1]), plugins[k - 1];
      ConsultedConstraintsMet(base, plugins, k - 1);
      ExtendNext(base, plugins, k - 1);
      PositionFits(chain, mw);
      assert Fits(chain, mw);
      EarlierDoNotWait(base, plugins, k - 1);
      InsertConsulted(chain, plugins, mw, Position(chain, mw));
    }
  }

  lemma BaseConsulted(base: seq<Middleware>, plugins: seq<Middleware>)
    requires Apart(base, plugins)
    ensures ConsultedMet(Extend(base, plugins[..0]), plugins)
  {
    assert plugins[..0] == [];
    forall i, j | 0 <= i < j < |base| ensures PairMet(base, plugins, i, j) {
      assert base[i] in base && base[j] in base;
    }
  }

  lemma EarlierDoNotWait(base: seq<Middleware>, plugins: seq<Middleware>, k: nat)
    requires k < |plugins| && Ordered(plugins) && Apart(base, plugins)
    ensures forall m :: m in Extend(base, plugins[..k]) && m in plugins ==> plugins[k].name !in m.ordering.mustRunAfter
  {
    hide Extend, Ordered;
    ExtendMembers(base, plugins[..k]);
    EarlierPlugins(plugins, k);
  }

  // ---------------------------------------------------------------- the constraint an insertion does not consult

  /** Placed at `p` the plugin satisfies every constraint between it and the chain's members. */
  ghost predicate AllFits(chain: seq<Middleware>, mw: Middleware, p: nat) {
    FitsAt(chain, mw, p) && NoneWaits(chain, mw, p)
  }

  ghost predicate MustFollow(member: Middleware, mw: Middleware) {
    member.name in mw.ordering.mustRunBefore || mw.name in member.ordering.mustRunAfter
  }

  /** Some place satisfies everything exactly when every member that must follow the plugin stands behind
      every member that must precede it. */
  lemma SomePlaceIff(chain: seq<Middleware>, mw: Middleware)
    ensures (exists q :: AllFits(chain, mw, q)) <==>
      forall i, j :: 0 <= i < |chain| && 0 <= j < |chain| && MustFollow(chain[i], mw) && MustPrecede(chain[j], mw) ==> j < i
  {
    EarliestOkBounds(chain, mw);
    var q := EarliestOk(chain, mw);
    if forall i, j :: 0 <= i < |chain| && 0 <= j < |chain| && MustFollow(chain[i], mw) && MustPrecede(chain[j], mw) ==> j < i {
      forall i | 0 <= i < q ensures !MustFollow(chain[i], mw) {
        assert MustPrecede(chain[q - 1], mw);
      }
      assert FitsAt(chain, mw, q) by {
        forall j | q <= j < |chain|
          ensures chain[j].name !in mw.ordering.mustRunAfter && mw.name !in chain[j].ordering.mustRunBefore
        {
          assert !MustPrecede(chain[j], mw);
        }
        assert forall i :: 0 <= i < q ==> !MustFollow(chain[i], mw);
      }
      assert NoneWaits(chain, mw, q) by {
        assert forall i :: 0 <= i < q ==> !MustFollow(chain[i], mw);
      }
      assert AllFits(chain, mw, q);
    } else if q :| AllFits(chain, mw, q) {
      PlaceSeparates(chain, mw, q);
    }
  }

  lemma PlaceSeparates(chain: seq<Middleware>, mw: Middleware, q: nat)
    requires AllFits(chain, mw, q)
    ensures forall i :: 0 <= i < |chain| && MustFollow(chain[i], mw) ==> q <= i
    ensures forall j :: 0 <= j < |chain| && MustPrecede(chain[j], mw) ==> j < q
  {
  }

  /** An insertion misses a place that satisfies everything exactly when it appends the plugin (no member of
      the chain is in its must_run_before), some member must run after it, and there is such a place. */
  lemma InsertionCompleteIff(chain: seq<Middleware>, mw: Middleware)
    ensures ((exists q :: AllFits(chain, mw, q)) ==> AllFits(chain, mw, Position(chain, mw))) <==>
      || (exists m :: m in chain && m.name in mw.ordering.mustRunBefore)
      || (forall m :: m in chain ==> mw.name !in m.ordering.mustRunAfter)
      || (exists i, j :: 0 <= i <= j < |chain| && MustFollow(chain[i], mw) && MustPrecede(chain[j], mw))
  {
    PositionFits(chain, mw);
    SomePlaceIff(chain, mw);
    var p := Position(chain, mw);
    if q :| AllFits(chain, mw, q) {
      assert FitsAt(chain, mw, q) && FitsAt(chain, mw, p);
      if exists m :: m in chain && m.name in mw.ordering.mustRunBefore {
        assert p <= q && AllFits(chain, mw, p);
      } else {
        assert p == |chain|;
        if m :| m in chain && mw.name in m.ordering.mustRunAfter {
          var i :| 0 <= i < |chain| && chain[i] == m;
          assert !NoneWaits(chain, mw, p);
        } else {
          assert forall i :: 0 <= i < |chain| ==> chain[i] in chain;
          assert NoneWaits(chain, mw, p);
        }
      }
    }
  }

  lemma NoneAtAll(chain: seq<Middleware>, mw: Middleware, p: nat)
    requires forall m :: m in chain ==> mw.name !in m.ordering.mustRunAfter
    ensures NoneWaits(chain, mw, p)
  {
  }

  lemma EarlierPlugins(plugins: seq<Middleware>, k: nat)
    requires k < |plugins| && Ordered(plugins)
    ensures forall m :: m in plugins[..k] ==> plugins[k].name !in m.ordering.mustRunAfter
  {
    forall m | m in plugins[..k] ensures plugins[k].name !in m.ordering.mustRunAfter {
      var a :| 0 <= a < k && plugins[a] == m;
    }
  }

  lemma NobodyWaits(base: seq<Middleware>, plugins: seq<Middleware>, k: nat)
    requires k < |plugins| && Ordered(plugins)
    requires forall b, m :: b in base && m in plugins ==> m.name !in b.ordering.mustRunAfter
    ensures forall m :: m in Extend(base, plugins[..k]) ==> plugins[k].name !in m.ordering.mustRunAfter
  {
    hide Extend, Ordered;
    ExtendMembers(base, plugins[..k]);
    EarlierPlugins(plugins, k);
    assert plugins[k] in plugins;
  }

  /** Plugins taken in an order that respects their own constraints, into a base whose members do not ask
      to run after any of them: if no insertion is clamped the final chain satisfies all constraints. */
  lemma PluginsInOrderSuffice(base: seq<Middleware>, plugins: seq<Middleware>)
    requires Ordered(base) && Ordered(plugins) && NeverClamped(base, plugins)
    requires forall b, m :: b in base && m in plugins ==> m.name !in b.ordering.mustRunAfter
    ensures Ordered(Extend(base, plugins))
  {
    hide Extend, Ordered, NeverClamped, Position, NoneWaits;
    forall k | 0 <= k < |plugins|
      ensures var chain := Extend(base, plugins[..k]); NoneWaits(chain, plugins[k], Position(chain, plugins[k]))
    {
      var chain := Extend(base, plugins[..k]);
      NobodyWaits(base, plugins, k);
      NoneAtAll(chain, plugins[k], Position(chain, plugins[k]));
    }
    ExtendedChainOrdered(base, plugins);
  }

  /** The order `load_plugins` resolves is such an order, when the instances carry the manifests' ids and
      attributes. */
  lemma ResolvedOrderOrdered(ids: seq<string>, manifests: map<string, Ordering>, order: seq<string>, plugins: seq<Middleware>)
    requires forall id :: id in ids ==> id in manifests
    requires TopologicalOrder(ids, ConstraintEdges(ids, manifests), order)
    requires |plugins| == |order| && forall k :: 0 <= k < |order| ==>
      order[k] in manifests && plugins[k] == Middleware(order[k], manifests[order[k]])
    ensures Ordered(plugins)
  {
    MultisetMembers(ids, order);
    var edges := ConstraintEdges(ids, manifests);
    forall i, j | 0 <= i < j < |plugins|
      ensures plugins[i].name !in plugins[j].ordering.mustRunBefore && plugins[j].name !in plugins[i].ordering.mustRunAfter
    {
      assert order[i] in ids && order[j] in ids;
      assert (order[j], order[i]) !in edges;
    }
  }

  /** A member's own must_run_after is not consulted: this plugin is appended behind the member that asked
      to run after it, although the other order satisfies everything. */
  lemma UnconsultedConstraint() returns (base: seq<Middleware>, mw: Middleware)
    ensures Ordered(base) && Ordered([mw] + base) && !Ordered(Extend(base, [mw]))
  {
    var member := Middleware("member", Ordering([], ["plugin"]));
    mw := Middleware("plugin", Ordering([], []));
    base := [member];
    assert [mw][..0] == [] && [mw][0] == mw;
    assert LatestOk(base[1..], mw) == 0 && LatestOk(base, mw) == 1;
    assert Extend(base, [mw]) == InsertAt(base, mw, 1);
    assert InsertAt(base, mw, 1)[0] == member && InsertAt(base, mw, 1)[1] == mw;
    assert ([mw] + base)[1] == member;
  }
}
