/** A watch over a run of store operations: polls at any moments between them. */
module WatchRuns {
  import opened Options
  import opened Sorting
  import opened StoreModel
  import opened StoreRuns
  import opened StoreWatch

  /** The operation receives, subscribes, unsubscribes or leaves a group for the agent. */
  predicate ByAgent(op: Op, agent: string) {
    match op
    case Subscribe(a, _) => a == agent
    case Receive(a, _, _) => a == agent
    case Unsubscribe(a, _) => a == agent
    case DropPattern(a, _) => a == agent
    case _ => false
  }

  /** Unless it settles messages for the agent, an operation only appends to what the agent sees. */
  lemma StepGrows(glob: Glob, store: Store, s: State, op: Op, agent: string)
    requires var output := Step(glob, store, s, op).1; output.Silent? || output.agent != agent
    ensures Grows(s.log, Step(glob, store, s, op).0.log, agent)
  {
    hide Batch, Undelivered, KeptPatterns, Wanted, Discarded;
  }

  lemma StepKeepsPatterns(glob: Glob, store: Store, s: State, op: Op, agent: string)
    requires !ByAgent(op, agent)
    ensures PatternsFor(Step(glob, store, s, op).0.subscriptions, agent) == PatternsFor(s.subscriptions, agent)
  {
  }

  lemma GrowsOn(a: Log, b: Log, c: Log, agent: string)
    requires Grows(a, b, agent) && Grows(b, c, agent)
    ensures Grows(a, c, agent)
  {
  }

  /** Between two moments of a run without operations by the agent. */
  lemma {:induction false} RunGrows(glob: Glob, store: Store, ops: seq<Op>, j: nat, k: nat, agent: string)
    requires j <= k <= |ops| && forall i :: j <= i < k ==> !ByAgent(ops[i], agent)
    ensures Grows(After(glob, store, ops[..j]).log, After(glob, store, ops[..k]).log, agent)
    ensures PatternsFor(After(glob, store, ops[..j]).subscriptions, agent) == PatternsFor(After(glob, store, ops[..k]).subscriptions, agent)
  {
    if j < k {
      hide After, Step, Grows;
      RunGrows(glob, store, ops, j, k - 1, agent);
      var before := After(glob, store, ops[..k - 1]);
      AfterNext(glob, store, ops, k - 1);
      OthersOutput(glob, store, before, ops[k - 1], agent);
      StepGrows(glob, store, before, ops[k - 1], agent);
      StepKeepsPatterns(glob, store, before, ops[k - 1], agent);
      GrowsOn(After(glob, store, ops[..j]).log, before.log, After(glob, store, ops[..k]).log, agent);
    }
  }

  lemma OthersOutput(glob: Glob, store: Store, s: State, op: Op, agent: string)
    requires !ByAgent(op, agent)
    ensures var output := Step(glob, store, s, op).1; output.Silent? || output.agent != agent
  {
  }

  function SubscribedAt(glob: Glob, s: State, agent: string): string -> bool {
    Wanted(glob, PatternsFor(s.subscriptions, agent), None)
  }

  /** The store as the polls after moments[0], moments[1], ... operations see it. */
  function PollsAt(glob: Glob, store: Store, ops: seq<Op>, moments: seq<nat>, agent: string): (polls: seq<Poll>)
    requires forall i :: 0 <= i < |moments| ==> moments[i] <= |ops|
    ensures |polls| == |moments|
    ensures forall i :: 0 <= i < |moments| ==>
      polls[i] == Poll(After(glob, store, ops[..moments[i]]).log, SubscribedAt(glob, After(glob, store, ops[..moments[i]]), agent))
  {
    seq(|moments|, i requires 0 <= i < |moments| =>
      Poll(After(glob, store, ops[..moments[i]]).log, SubscribedAt(glob, After(glob, store, ops[..moments[i]]), agent)))
  }

  /** In any run, whatever the operations and whenever it polls, a watch yields no message twice. */
  lemma WatchNeverRepeats(glob: Glob, store: Store, ops: seq<Op>, moments: seq<nat>, agent: string, mark: int)
    requires forall i :: 0 <= i < |moments| ==> moments[i] <= |ops|
    ensures Distinct(Yields(PollsAt(glob, store, ops, moments, agent), agent, mark))
  {
    var polls := PollsAt(glob, store, ops, moments, agent);
    forall i | 0 <= i < |polls| ensures IdsAscending(polls[i].log) {
      RunDense(glob, store, ops[..moments[i]]);
    }
    WatchYieldsOnce(polls, agent, mark);
  }

  /** While the agent itself neither receives nor changes its subscriptions, the polls of a watch together
      yield exactly what is pending for it above the starting mark at the last poll, each once. */
  lemma WatchCompleteOverRun(glob: Glob, store: Store, ops: seq<Op>, moments: seq<nat>, agent: string, mark: int)
    requires moments != [] && forall i :: 0 <= i < |moments| ==> moments[i] <= |ops|
    requires forall i, j :: 0 <= i < j < |moments| ==> moments[i] <= moments[j]
    requires forall k :: moments[0] <= k < moments[|moments| - 1] ==> !ByAgent(ops[k], agent)
    ensures var last := After(glob, store, ops[..moments[|moments| - 1]]);
      multiset(Yields(PollsAt(glob, store, ops, moments, agent), agent, mark))
        == multiset(Above(Undelivered(last.log, agent, SubscribedAt(glob, last, agent)), mark))
  {
    hide After, Grows, Yields, Undelivered, Above;
    var polls := PollsAt(glob, store, ops, moments, agent);
    var wanted := polls[|polls| - 1].wanted;
    forall i | 0 <= i < |polls| ensures polls[i].wanted == wanted && IdsAscending(polls[i].log) {
      RunDense(glob, store, ops[..moments[i]]);
      RunGrows(glob, store, ops, moments[i], moments[|moments| - 1], agent);
    }
    forall i | 0 <= i < |polls| - 1 ensures Grows(polls[i].log, polls[i + 1].log, agent) {
      RunGrows(glob, store, ops, moments[i], moments[i + 1], agent);
    }
    WatchComplete(polls, agent, wanted, mark);
  }
}
