/** Runs of store operations: sequence density, the delivery account, and the single watch. */
module StoreRuns {
  import opened Options
  import opened Sorting
  import opened StoreModel
  import opened StoreDrain

  // ---------------------------------------------------------------- state and operations

  datatype State = State(log: Log, subscriptions: map<string, seq<string>>, channelSeq: map<string, int>, nextId: int)

  const INITIAL: State := State([], map[], map[], 1)

  const PRESENCE_CHANNEL: string := "sox/presence"

  function PatternsFor(subscriptions: map<string, seq<string>>, agent: string): seq<string> {
    if agent in subscriptions then subscriptions[agent] else []
  }

  function LastSeq(channelSeq: map<string, int>, channel: string): int {
    if channel in channelSeq then channelSeq[channel] else 0
  }

  /** What `send` and `heartbeat` do to the log. */
  function Append(s: State, channel: string, sender: string, body: string, correlationId: Option<string>,
                  sentAt: real, replyTo: Option<string>): State {
    var n := LastSeq(s.channelSeq, channel) + 1;
    var msg := Message(s.nextId, channel, sender, body, correlationId, sentAt, n, replyTo);
    s.(log := s.log + [Row(msg, {})], channelSeq := s.channelSeq[channel := n], nextId := s.nextId + 1)
  }

  function AddPattern(patterns: seq<string>, pattern: string): seq<string> {
    if pattern in patterns then patterns else patterns + [pattern]
  }

  function Named(patterns: seq<string>): string -> bool {
    p => p in patterns
  }

  function NotNamed(patterns: seq<string>): string -> bool {
    p => p !in patterns
  }

  /** The subscriptions an `unsubscribe` call names. */
  function RemovedPatterns(subscriptions: map<string, seq<string>>, agent: string, patterns: seq<string>): seq<string> {
    Filter(Named(patterns), PatternsFor(subscriptions, agent))
  }

  function KeptPatterns(subscriptions: map<string, seq<string>>, agent: string, patterns: seq<string>): seq<string> {
    Filter(NotNamed(patterns), PatternsFor(subscriptions, agent))
  }

  /** The backlog an `unsubscribe` call discards. */
  function Discarded(glob: Glob, s: State, agent: string, patterns: seq<string>): seq<Message> {
    Undelivered(s.log, agent, Wanted(glob, RemovedPatterns(s.subscriptions, agent, patterns), None))
  }

  datatype Op =
    | Send(channel: string, sender: string, body: string, correlationId: Option<string>, sentAt: real, replyTo: Option<string>)
    | Heartbeat(agent: string, body: string, now: real)
    | Subscribe(agent: string, pattern: string)
    | Receive(agent: string, channels: Option<seq<string>>, max: int)
    | Unsubscribe(agent: string, patterns: seq<string>)
    | DropPattern(agent: string, pattern: string)  // what leaving a group does to the subscriptions

  /** The messages an operation settles for its agent, handed over or discarded. */
  datatype Output = Silent | Returned(agent: string, messages: seq<Message>) | Cleared(agent: string, messages: seq<Message>)

  function Step(glob: Glob, store: Store, s: State, op: Op): (State, Output) {
    match op
    case Send(channel, sender, body, correlationId, sentAt, replyTo) =>
      (Append(s, channel, sender, body, correlationId, sentAt, replyTo), Silent)
    case Heartbeat(agent, body, now) =>
      (Append(s, PRESENCE_CHANNEL, "__server__", body, None, now, None), Silent)
    case Subscribe(agent, pattern) =>
      (s.(subscriptions := s.subscriptions[agent := AddPattern(PatternsFor(s.subscriptions, agent), pattern)]), Silent)
    case Receive(agent, channels, max) =>
      var (log, batch) := Recv(store, s.log, agent, Wanted(glob, PatternsFor(s.subscriptions, agent), channels), max);
      (s.(log := log), Returned(agent, batch))
    case Unsubscribe(agent, patterns) =>
      var gone := Discarded(glob, s, agent, patterns);
      (s.(log := MarkDelivered(s.log, agent, Ids(gone)),
          subscriptions := s.subscriptions[agent := KeptPatterns(s.subscriptions, agent, patterns)]),
       Cleared(agent, gone))
    case DropPattern(agent, pattern) =>
      (s.(subscriptions := s.subscriptions[agent := Filter(p => p != pattern, PatternsFor(s.subscriptions, agent))]), Silent)
  }

  function After(glob: Glob, store: Store, ops: seq<Op>): State {
    if ops == [] then INITIAL else Step(glob, store, After(glob, store, ops[..|ops| - 1]), ops[|ops| - 1]).0
  }

  function OutputAt(glob: Glob, store: Store, ops: seq<Op>, k: nat): Output
    requires k < |ops|
  {
    Step(glob, store, After(glob, store, ops[..k]), ops[k]).1
  }

  lemma AfterNext(glob: Glob, store: Store, ops: seq<Op>, k: nat)
    requires k < |ops|
    ensures After(glob, store, ops[..k + 1]) == Step(glob, store, After(glob, store, ops[..k]), ops[k]).0
  {
    assert ops[..k + 1][..k] == ops[..k];
  }

  // ---------------------------------------------------------------- density

  function Messages(log: Log): (r: seq<Message>)
    ensures |r| == |log| && forall i :: 0 <= i < |log| ==> r[i] == log[i].msg
  {
    seq(|log|, i requires 0 <= i < |log| => log[i].msg)
  }

  /** Ids are 1..n in log order; the messages of each channel carry 1..k, and k is the channel's counter. */
  ghost predicate Dense(s: State) {
    && s.nextId == |s.log| + 1
    && (forall i :: 0 <= i < |s.log| ==> s.log[i].msg.id == i + 1)
    && forall c :: ChannelDense(Messages(s.log), LastSeq(s.channelSeq, c), c)
  }

  ghost predicate ChannelDense(ms: seq<Message>, last: int, channel: string) {
    var line := OnChannel(ms, channel);
    |line| == last && forall k :: 0 <= k < |line| ==> line[k].seqNo == k + 1
  }

  lemma AppendKeepsDense(s: State, channel: string, sender: string, body: string, correlationId: Option<string>,
                         sentAt: real, replyTo: Option<string>)
    requires Dense(s)
    ensures Dense(Append(s, channel, sender, body, correlationId, sentAt, replyTo))
  {
    hide ChannelDense;
    var s' := Append(s, channel, sender, body, correlationId, sentAt, replyTo);
    var msg := s'.log[|s.log|].msg;
    assert Messages(s'.log) == Messages(s.log) + [msg];
    forall c ensures ChannelDense(Messages(s'.log), LastSeq(s'.channelSeq, c), c) {
      assert ChannelDense(Messages(s.log), LastSeq(s.channelSeq, c), c);
      OneMoreOnChannel(Messages(s.log), msg, LastSeq(s.channelSeq, c), c);
    }
  }

  lemma OneMoreOnChannel(ms: seq<Message>, msg: Message, last: int, channel: string)
    requires ChannelDense(ms, last, channel) && (msg.channel == channel ==> msg.seqNo == last + 1)
    ensures ChannelDense(ms + [msg], if msg.channel == channel then last + 1 else last, channel)
  {
    OnChannelConcat(ms, [msg], channel);
    assert OnChannel([msg], channel) == if msg.channel == channel then [msg] else [];
  }

  lemma StepKeepsDense(glob: Glob, store: Store, s: State, op: Op)
    requires Dense(s)
    ensures Dense(Step(glob, store, s, op).0)
  {
    hide Dense, Append;
    match op
    case Send(channel, sender, body, correlationId, sentAt, replyTo) =>
      AppendKeepsDense(s, channel, sender, body, correlationId, sentAt, replyTo);
    case Heartbeat(agent, body, now) =>
      AppendKeepsDense(s, PRESENCE_CHANNEL, "__server__", body, None, now, None);
    case _ =>
      SameMessagesDense(s, Step(glob, store, s, op).0);
  }

  lemma SameMessagesDense(s: State, s': State)
    requires Dense(s) && |s'.log| == |s.log| && forall i :: 0 <= i < |s.log| ==> s'.log[i].msg == s.log[i].msg
    requires s'.channelSeq == s.channelSeq && s'.nextId == s.nextId
    ensures Dense(s')
  {
    assert Messages(s'.log) == Messages(s.log);
  }

  lemma MarkKeepsDense(s: State, s': State, agent: string, ids: set<int>)
    requires Dense(s) && IdsAscending(s.log)
    requires s'.log == MarkDelivered(s.log, agent, ids) && s'.channelSeq == s.channelSeq && s'.nextId == s.nextId
    ensures Dense(s') && IdsAscending(s'.log)
  {
    SameMessagesDense(s, s');
  }

  /** Every reachable state is dense. */
  lemma {:induction false} RunDense(glob: Glob, store: Store, ops: seq<Op>)
    ensures Dense(After(glob, store, ops))
    ensures IdsAscending(After(glob, store, ops).log)
  {
    if ops != [] {
      RunDense(glob, store, ops[..|ops| - 1]);
      StepKeepsDense(glob, store, After(glob, store, ops[..|ops| - 1]), ops[|ops| - 1]);
    } else {
      InitiallyDense();
    }
  }

  lemma InitiallyDense()
    ensures Dense(INITIAL) && IdsAscending(INITIAL.log)
  {
    forall c ensures ChannelDense(Messages(INITIAL.log), LastSeq(INITIAL.channelSeq, c), c) {
      assert Messages(INITIAL.log) == [];
    }
  }

  // ---------------------------------------------------------------- the delivery account

  function DeliveredCount(log: Log, agent: string): nat {
    if log == [] then 0
    else DeliveredCount(log[..|log| - 1], agent) + if agent in log[|log| - 1].deliveredTo then 1 else 0
  }

  lemma {:induction false} DeliveredOrPending(log: Log, agent: string)
    ensures DeliveredCount(log, agent) + |Undelivered(log, agent, c => true)| == |log|
  {
    if log != [] {
      DeliveredOrPending(log[..|log| - 1], agent);
    }
  }

  function WantedMessage(wanted: string -> bool): Message -> bool {
    (m: Message) => wanted(m.channel)
  }

  lemma {:induction false} UndeliveredSelects(log: Log, agent: string, wanted: string -> bool)
    ensures Undelivered(log, agent, wanted) == Filter(WantedMessage(wanted), Undelivered(log, agent, c => true))
  {
    if log != [] {
      var n := |log| - 1;
      UndeliveredSelects(log[..n], agent, wanted);
      FilterConcat(WantedMessage(wanted), Undelivered(log[..n], agent, c => true),
                   if Pending(log[n], agent, c => true) then [log[n].msg] else []);
    }
  }

  /** Settling part of what is pending adds exactly its size to the agent's account. */
  lemma SettleCounts(log: Log, agent: string, wanted: string -> bool, settled: seq<Message>)
    requires IdsAscending(log)
    requires Distinct(settled) && multiset(settled) <= multiset(Undelivered(log, agent, wanted))
    ensures DeliveredCount(MarkDelivered(log, agent, Ids(settled)), agent) == DeliveredCount(log, agent) + |settled|
  {
    var all: string -> bool := c => true;
    var pending := Undelivered(log, agent, all);
    var log' := MarkDelivered(log, agent, Ids(settled));
    UndeliveredAscending(log, agent, all);
    assert multiset(settled) <= multiset(pending) by {
      UndeliveredSelects(log, agent, wanted);
      forall m ensures multiset(settled)[m] <= multiset(pending)[m] {
        FilterMultiplicity(WantedMessage(wanted), pending, m);
      }
    }
    UndeliveredAfterMark(log, agent, all, Ids(settled));
    RemainingMultiset(pending, settled);
    DeliveredOrPending(log, agent);
    DeliveredOrPending(log', agent);
  }

  lemma {:induction false} OthersAccount(log: Log, agent: string, other: string, ids: set<int>)
    requires agent != other
    ensures DeliveredCount(MarkDelivered(log, agent, ids), other) == DeliveredCount(log, other)
  {
    if log != [] {
      var n := |log| - 1;
      OthersAccount(log[..n], agent, other, ids);
      assert MarkDelivered(log, agent, ids)[..n] == MarkDelivered(log[..n], agent, ids);
    }
  }

  /** The size of what an operation settled for `agent`. */
  function Settled(output: Output, agent: string): nat {
    if output.Silent? || output.agent != agent then 0 else |output.messages|
  }

  function TotalReturned(glob: Glob, store: Store, ops: seq<Op>, agent: string): nat {
    if ops == [] then 0
    else
      var output := OutputAt(glob, store, ops, |ops| - 1);
      TotalReturned(glob, store, ops[..|ops| - 1], agent) + if output.Returned? then Settled(output, agent) else 0
  }

  function TotalCleared(glob: Glob, store: Store, ops: seq<Op>, agent: string): nat {
    if ops == [] then 0
    else
      var output := OutputAt(glob, store, ops, |ops| - 1);
      TotalCleared(glob, store, ops[..|ops| - 1], agent) + if output.Cleared? then Settled(output, agent) else 0
  }

  ghost predicate PartOfBacklog(log: Log, agent: string, wanted: string -> bool, ms: seq<Message>) {
    multiset(ms) <= multiset(Undelivered(log, agent, wanted))
  }

  /** What an operation settles was pending for its agent, without repetition. */
  lemma OutputWasPending(glob: Glob, store: Store, s: State, op: Op)
    requires IdsAscending(s.log)
    ensures var (s', output) := Step(glob, store, s, op);
      output.Silent? ||
      (&& s'.log == MarkDelivered(s.log, output.agent, Ids(output.messages))
       && Distinct(output.messages)
       && exists wanted :: PartOfBacklog(s.log, output.agent, wanted, output.messages))
  {
    match op
    case Receive(agent, channels, max) =>
      var wanted := Wanted(glob, PatternsFor(s.subscriptions, agent), channels);
      UndeliveredAscending(s.log, agent, wanted);
      BatchProperties(store, Undelivered(s.log, agent, wanted), max);
      assert PartOfBacklog(s.log, agent, wanted, Batch(store, Undelivered(s.log, agent, wanted), max));
    case Unsubscribe(agent, patterns) =>
      var wanted := Wanted(glob, RemovedPatterns(s.subscriptions, agent, patterns), None);
      UndeliveredAscending(s.log, agent, wanted);
      AscendingNoTies(Undelivered(s.log, agent, wanted));
      assert PartOfBacklog(s.log, agent, wanted, Discarded(glob, s, agent, patterns));
    case _ =>
  }

  lemma StepAccount(glob: Glob, store: Store, s: State, op: Op, agent: string)
    requires IdsAscending(s.log)
    ensures var (s', output) := Step(glob, store, s, op);
      DeliveredCount(s'.log, agent) == DeliveredCount(s.log, agent) + Settled(output, agent)
  {
    var (s', output) := Step(glob, store, s, op);
    OutputWasPending(glob, store, s, op);
    if output.Silent? {
      if op.Send? || op.Heartbeat? {
        assert s'.log[..|s'.log| - 1] == s.log;
      }
    } else if output.agent == agent {
      var wanted :| multiset(output.messages) <= multiset(Undelivered(s.log, agent, wanted));
      SettleCounts(s.log, agent, wanted, output.messages);
    } else {
      OthersAccount(s.log, output.agent, agent, Ids(output.messages));
    }
  }

  /** Over any run, the messages marked delivered to an agent number exactly those `recv` returned to it
      plus those `unsubscribe` reported cleared. */
  lemma {:induction false} DeliveryAccount(glob: Glob, store: Store, ops: seq<Op>, agent: string)
    ensures DeliveredCount(After(glob, store, ops).log, agent)
         == TotalReturned(glob, store, ops, agent) + TotalCleared(glob, store, ops, agent)
  {
    if ops != [] {
      var n := |ops| - 1;
      DeliveryAccount(glob, store, ops[..n], agent);
      RunDense(glob, store, ops[..n]);
      StepAccount(glob, store, After(glob, store, ops[..n]), ops[n], agent);
    }
  }

  /** `ids` belong to stored messages that are all delivered to `agent`. */
  ghost predicate AllDelivered(log: Log, agent: string, ids: set<int>) {
    && (forall i :: 0 <= i < |log| && log[i].msg.id in ids ==> agent in log[i].deliveredTo)
    && (forall x :: x in ids ==> 1 <= x <= |log|)
  }

  lemma DeliveredStays(glob: Glob, store: Store, s: State, op: Op, agent: string, ids: set<int>)
    requires Dense(s) && AllDelivered(s.log, agent, ids)
    ensures AllDelivered(Step(glob, store, s, op).0.log, agent, ids)
  {
    hide Step;
    StepKeepsRows(glob, store, s, op);
    var log' := Step(glob, store, s, op).0.log;
    StepKeepsDense(glob, store, s, op);
    forall i | 0 <= i < |log'| && log'[i].msg.id in ids ensures agent in log'[i].deliveredTo {
      assert log'[i].msg.id == i + 1;
      assert i < |s.log| && s.log[i].msg.id in ids;
    }
  }

  /** An operation keeps every stored message and everybody it was delivered to. */
  lemma StepKeepsRows(glob: Glob, store: Store, s: State, op: Op)
    ensures var log' := Step(glob, store, s, op).0.log;
      && |s.log| <= |log'|
      && forall i :: 0 <= i < |s.log| ==> log'[i].msg == s.log[i].msg && s.log[i].deliveredTo <= log'[i].deliveredTo
  {
    hide Batch, Undelivered, KeptPatterns, Wanted;
  }

  lemma MarkedIsDelivered(log: Log, agent: string, wanted: string -> bool, ms: seq<Message>)
    requires forall i :: 0 <= i < |log| ==> log[i].msg.id == i + 1
    requires PartOfBacklog(log, agent, wanted, ms)
    ensures AllDelivered(MarkDelivered(log, agent, Ids(ms)), agent, Ids(ms))
  {
    UndeliveredMembers(log, agent, wanted);
    forall x | x in Ids(ms) ensures 1 <= x <= |log| {
      var m :| m in ms && m.id == x;
      assert m in multiset(ms);
      assert m in Undelivered(log, agent, wanted);
    }
  }

  lemma OutputDelivered(glob: Glob, store: Store, s: State, op: Op)
    requires Dense(s) && IdsAscending(s.log)
    ensures var (s', output) := Step(glob, store, s, op);
      output.Silent? || AllDelivered(s'.log, output.agent, Ids(output.messages))
  {
    var output := Step(glob, store, s, op).1;
    OutputWasPending(glob, store, s, op);
    if !output.Silent? {
      var wanted :| PartOfBacklog(s.log, output.agent, wanted, output.messages);
      MarkedIsDelivered(s.log, output.agent, wanted, output.messages);
    }
  }

  lemma DeliveredIsNotPending(log: Log, agent: string, wanted: string -> bool, ids: set<int>, ms: seq<Message>)
    requires IdsAscending(log) && AllDelivered(log, agent, ids)
    requires multiset(ms) <= multiset(Undelivered(log, agent, wanted))
    ensures forall m :: m in ms ==> m.id !in ids
  {
    UndeliveredMembers(log, agent, wanted);
    forall m | m in ms ensures m.id !in ids {
      assert m in multiset(ms);
      assert m in Undelivered(log, agent, wanted);
    }
  }

  /** What is delivered to an agent stays delivered for the rest of the run. */
  lemma {:induction false} DeliveredForever(glob: Glob, store: Store, ops: seq<Op>, j: nat, k: nat, agent: string, ids: set<int>)
    requires j <= k <= |ops| && AllDelivered(After(glob, store, ops[..j]).log, agent, ids)
    ensures AllDelivered(After(glob, store, ops[..k]).log, agent, ids)
  {
    hide After, Step, Dense, AllDelivered;
    if j < k {
      DeliveredForever(glob, store, ops, j, k - 1, agent, ids);
      var before := After(glob, store, ops[..k - 1]);
      RunDense(glob, store, ops[..k - 1]);
      DeliveredStays(glob, store, before, ops[k - 1], agent, ids);
      AfterNext(glob, store, ops, k - 1);
    }
  }

  /** No message is returned or cleared twice for the same agent. */
  lemma SettledOnce(glob: Glob, store: Store, ops: seq<Op>, j: nat, k: nat)
    requires j < k < |ops|
    requires !OutputAt(glob, store, ops, j).Silent? && !OutputAt(glob, store, ops, k).Silent?
    requires OutputAt(glob, store, ops, j).agent == OutputAt(glob, store, ops, k).agent
    ensures Ids(OutputAt(glob, store, ops, j).messages) !! Ids(OutputAt(glob, store, ops, k).messages)
  {
    var before := After(glob, store, ops[..k]);
    var first, second := OutputAt(glob, store, ops, j), OutputAt(glob, store, ops, k);
    RunDense(glob, store, ops[..j]);
    OutputDelivered(glob, store, After(glob, store, ops[..j]), ops[j]);
    AfterNext(glob, store, ops, j);
    DeliveredForever(glob, store, ops, j + 1, k, first.agent, Ids(first.messages));
    RunDense(glob, store, ops[..k]);
    OutputWasPending(glob, store, before, ops[k]);
    var wanted :| PartOfBacklog(before.log, second.agent, wanted, second.messages);
    DeliveredIsNotPending(before.log, second.agent, wanted, Ids(first.messages), second.messages);
  }
}
