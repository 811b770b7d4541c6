/** Where exactly a plugin is inserted, clamped or not. */
module ChainPlaces {
  import opened PluginOrder
  import opened DefaultChain

  /** The plugin must run after the member, by either one's declaration. */
  ghost predicate RunsBehind(mw: Middleware, member: Middleware) {
    member.name in mw.ordering.mustRunAfter || mw.name in member.ordering.mustRunBefore
  }

  ghost predicate RunsAhead(mw: Middleware, member: Middleware) {
    member.name in mw.ordering.mustRunBefore
  }

  /** A plugin that has to run before nobody is appended. */
  lemma AppendedPlace(chain: seq<Middleware>, mw: Middleware)
    requires forall m :: m in chain ==> !RunsAhead(mw, m)
    ensures Position(chain, mw) == |chain|
  {
    LatestOkBounds(chain, mw);
    assert forall i :: 0 <= i < |chain| ==> chain[i] in chain;
  }

  /** Otherwise let f be the first member it must run before. If a member from there on must run before the
      plugin, no place fits and it is put right before f; if not, right behind the last member that must run
      before it, at the front if there is none. */
  lemma InsertedPlace(chain: seq<Middleware>, mw: Middleware, f: nat)
    requires f < |chain| && RunsAhead(mw, chain[f]) && forall i :: 0 <= i < f ==> !RunsAhead(mw, chain[i])
    ensures var p := Position(chain, mw);
      if exists j :: f <= j < |chain| && RunsBehind(mw, chain[j]) then p == f
      else p <= f && (p > 0 ==> RunsBehind(mw, chain[p - 1])) && forall j :: p <= j < |chain| ==> !RunsBehind(mw, chain[j])
  {
    LatestOkBounds(chain, mw);
    EarliestOkBounds(chain, mw);
  }

  /** Plugins that have to run before nobody follow the base in the resolved order. */
  lemma {:induction false} AllAppended(base: seq<Middleware>, plugins: seq<Middleware>)
    requires forall mw, m :: mw in plugins && (m in base || m in plugins) ==> !RunsAhead(mw, m)
    ensures Extend(base, plugins) == base + plugins
  {
    if plugins == [] {
      assert base + plugins == base;
    } else {
      var init, mw := plugins[..|plugins| - 1], plugins[|plugins| - 1];
      assert plugins == init + [mw];
      AllAppended(base, init);
      AppendedPlace(base + init, mw);
      ExtendNext(base, plugins, |init|);
      assert plugins[..|init|] == init && plugins[..|init| + 1] == plugins;
      assert base + init + [mw] == base + plugins;
    }
  }
}
