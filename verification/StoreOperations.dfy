/** What the operations of the store do, in terms of its rows and subscriptions alone. */
module StoreOperations {
  import opened Options
  import opened Sorting
  import opened StoreModel
  import opened StoreDrain
  import opened StoreRuns
  import opened StoreReplay
  import opened StoreWatch

  ghost predicate Holds(s: State, agent: string, pattern: string) {
    agent in s.subscriptions && pattern in s.subscriptions[agent]
  }

  /** The message is stored and has not been delivered to the agent. */
  ghost predicate Waiting(log: Log, agent: string, m: Message) {
    exists i :: 0 <= i < |log| && log[i].msg == m && agent !in log[i].deliveredTo
  }

  /** A receive asks for the channels it names or, when it names none, for those a held pattern matches. */
  ghost predicate AsksFor(glob: Glob, s: State, agent: string, channels: Option<seq<string>>, channel: string) {
    match channels
    case Some(names) => channel in names
    case None => exists p :: Holds(s, agent, p) && glob(channel, p)
  }

  ghost predicate Owed(glob: Glob, s: State, agent: string, channels: Option<seq<string>>, m: Message) {
    Waiting(s.log, agent, m) && AsksFor(glob, s, agent, channels, m.channel)
  }

  /** `m` is handed out before `n`: smaller channel name, then earlier, then smaller id. */
  ghost predicate HandedOutBefore(m: Message, n: Message) {
    || Smaller(m.channel, n.channel)
    || (m.channel == n.channel && (m.sentAt < n.sentAt || (m.sentAt == n.sentAt && m.id < n.id)))
  }

  ghost predicate InOrder(ms: seq<Message>) {
    forall i, j :: 0 <= i < j < |ms| ==> HandedOutBefore(ms[i], ms[j])
  }

  /** Exactly these messages have become delivered to the agent; nothing else in the log changed. */
  ghost predicate MarkedOnly(before: Log, after: Log, agent: string, ms: seq<Message>) {
    && |after| == |before|
    && forall i :: 0 <= i < |before| ==>
         after[i] == Row(before[i].msg, before[i].deliveredTo + if before[i].msg in ms then {agent} else {})
  }

  // ---------------------------------------------------------------- recv

  lemma BeforeIff(m: Message, n: Message)
    requires m.id != n.id
    ensures Before(m, n) <==> HandedOutBefore(m, n)
  {
    StringLeIff(m.channel, n.channel);
    if m.channel == n.channel {
      NotSmaller(m.channel);
    }
  }

  lemma SortedInOrder(ms: seq<Message>)
    requires SortedBy(Before, ms) && forall i, j :: 0 <= i < j < |ms| ==> ms[i].id != ms[j].id
    ensures InOrder(ms)
  {
    hide Before, HandedOutBefore;
    forall i, j | 0 <= i < j < |ms| ensures HandedOutBefore(ms[i], ms[j]) {
      BeforeIff(ms[i], ms[j]);
    }
  }

  /** Messages of a log with the same id are the same. */
  lemma SameId(log: Log, m: Message, n: Message)
    requires IdsAscending(log) && m in Messages(log) && n in Messages(log) && m.id == n.id
    ensures m == n
  {
  }

  lemma PendingIffOwed(glob: Glob, s: State, agent: string, channels: Option<seq<string>>)
    ensures forall m :: m in Undelivered(s.log, agent, Wanted(glob, PatternsFor(s.subscriptions, agent), channels)) <==>
      Owed(glob, s, agent, channels, m)
  {
    hide Undelivered;
    UndeliveredMembers(s.log, agent, Wanted(glob, PatternsFor(s.subscriptions, agent), channels));
  }

  /** What a receive may return at most. */
  function AtMost(store: Store, max: int): int {
    match store
    case Memory => if max <= 0 then 0 else max
    case Sqlite => if max <= 1 then 1 else max
  }

  /** A receive returns messages the agent is owed, in order, each once and as many as the limit allows:
      the memory store the oldest, SQLite the first in that order. They and no others become delivered. */
  lemma ReceiveExactly(glob: Glob, store: Store, s: State, agent: string, channels: Option<seq<string>>, max: int)
    requires IdsAscending(s.log)
    ensures var (s', output) := Step(glob, store, s, Op.Receive(agent, channels, max));
      && output == Returned(agent, output.messages) && s' == s.(log := s'.log)
      && MarkedOnly(s.log, s'.log, agent, output.messages)
      && InOrder(output.messages) && Distinct(output.messages)
      && (forall m :: m in output.messages ==> Owed(glob, s, agent, channels, m))
      && |output.messages| <= AtMost(store, max)
      && forall m, n :: m in output.messages && Owed(glob, s, agent, channels, n) && n !in output.messages ==>
           if store.Memory? then m.id < n.id else HandedOutBefore(m, n)
    ensures var output := Step(glob, store, s, Op.Receive(agent, channels, max)).1;
      |output.messages| < AtMost(store, max) ==> forall m :: Owed(glob, s, agent, channels, m) ==> m in output.messages
  {
    hide Undelivered, Batch, Owed, HandedOutBefore, Before, MarkedOnly, InOrder, Wanted;
    var wanted := Wanted(glob, PatternsFor(s.subscriptions, agent), channels);
    var pending := Undelivered(s.log, agent, wanted);
    var batch := Batch(store, pending, max);
    PendingIffOwed(glob, s, agent, channels);
    UndeliveredAscending(s.log, agent, wanted);
    BatchFirst(store, pending, max);
    PendingStored(s.log, agent, wanted);
    BatchInOrder(store, pending, max);
    BatchMarked(s.log, agent, batch);
  }

  lemma PendingStored(log: Log, agent: string, wanted: string -> bool)
    ensures forall m :: m in Undelivered(log, agent, wanted) ==> m in Messages(log)
  {
    hide Undelivered;
    UndeliveredMembers(log, agent, wanted);
    forall m | m in Undelivered(log, agent, wanted) ensures m in Messages(log) {
      var i :| 0 <= i < |log| && log[i].msg == m;
      assert Messages(log)[i] == m;
    }
  }

  lemma BatchMarked(log: Log, agent: string, batch: seq<Message>)
    requires IdsAscending(log) && forall m :: m in batch ==> m in Messages(log)
    ensures MarkedOnly(log, MarkDelivered(log, agent, Ids(batch)), agent, batch)
  {
    var after := MarkDelivered(log, agent, Ids(batch));
    forall i | 0 <= i < |log|
      ensures after[i] == Row(log[i].msg, log[i].deliveredTo + if log[i].msg in batch then {agent} else {})
    {
      if log[i].msg.id in Ids(batch) {
        var m :| m in batch && m.id == log[i].msg.id;
        assert Messages(log)[i] == log[i].msg;
        SameId(log, m, log[i].msg);
      }
    }
  }

  lemma AscendingIds(pending: seq<Message>, m: Message, n: Message)
    requires Ascending(pending) && m in pending && n in pending && m != n
    ensures m.id != n.id
  {
  }

  lemma BatchInOrder(store: Store, pending: seq<Message>, max: int)
    requires Ascending(pending)
    ensures InOrder(Batch(store, pending, max)) && Distinct(Batch(store, pending, max))
  {
    hide Batch, Before, InOrder;
    var batch := Batch(store, pending, max);
    BatchProperties(store, pending, max);
    BagMembers(batch, pending);
    forall i, j | 0 <= i < j < |batch| ensures batch[i].id != batch[j].id {
      AscendingIds(pending, batch[i], batch[j]);
    }
    SortedInOrder(batch);
  }

  lemma BagMembers(s: seq<Message>, t: seq<Message>)
    requires multiset(s) <= multiset(t)
    ensures forall m :: m in s ==> m in t
  {
    forall m | m in s ensures m in t {
      assert m in multiset(s) && m in multiset(t);
    }
  }

  /** A batch is part of the backlog, and full or all of it; what it leaves comes later. */
  lemma BatchFirst(store: Store, pending: seq<Message>, max: int)
    requires Ascending(pending)
    ensures var batch := Batch(store, pending, max);
      && (forall m :: m in batch ==> m in pending) && |batch| <= AtMost(store, max)
      && (|batch| < AtMost(store, max) ==> forall m :: m in pending ==> m in batch)
      && forall m, n :: m in batch && n in pending && n !in batch ==>
           if store.Memory? then m.id < n.id else HandedOutBefore(m, n)
  {
    hide Before, HandedOutBefore, Sort;
    var batch := Batch(store, pending, max);
    BatchProperties(store, pending, max);
    BagMembers(batch, pending);
    if |batch| < AtMost(store, max) {
      SmallerIsAll(batch, pending);
    }
    forall m, n | m in batch && n in pending && n !in batch ensures if store.Memory? then m.id < n.id else HandedOutBefore(m, n) {
      match store
      case Memory => OldestTaken(pending, max, m, n);
      case Sqlite => FirstTaken(pending, max, m, n);
    }
  }

  lemma SmallerIsAll(batch: seq<Message>, pending: seq<Message>)
    requires multiset(batch) <= multiset(pending) && |batch| == |pending|
    ensures forall m :: m in pending ==> m in batch
  {
    assert multiset(pending) == multiset(batch) + (multiset(pending) - multiset(batch));
    assert |multiset(pending)| == |multiset(batch)| + |multiset(pending) - multiset(batch)|;
    assert |multiset(batch)| == |batch| && |multiset(pending)| == |pending|;
    assert multiset(batch) == multiset(pending);
    forall m | m in pending ensures m in batch {
      assert m in multiset(pending);
    }
  }

  lemma OldestTaken(pending: seq<Message>, max: int, m: Message, n: Message)
    requires Ascending(pending) && m in MemoryBatch(pending, max) && n in pending && n !in MemoryBatch(pending, max)
    ensures m.id < n.id
  {
    hide Sort;
    var cut := Take(pending, max);
    MultisetMembers(MemoryBatch(pending, max), cut);
    var i :| 0 <= i < |cut| && cut[i] == m;
    var j :| 0 <= j < |pending| && pending[j] == n;
    assert forall k :: 0 <= k < |cut| ==> pending[k] == cut[k] && cut[k] in cut;
  }

  lemma FirstTaken(pending: seq<Message>, max: int, m: Message, n: Message)
    requires Ascending(pending) && m in SqliteBatch(pending, max) && n in pending && n !in SqliteBatch(pending, max)
    ensures HandedOutBefore(m, n)
  {
    hide Sort, Before, HandedOutBefore;
    var sorted, batch := Sort(Before, pending), SqliteBatch(pending, max);
    MultisetMembers(sorted, pending);
    assert batch == sorted[..|batch|];
    BacklogSorted(pending);
    var i :| 0 <= i < |batch| && batch[i] == m;
    var j :| 0 <= j < |sorted| && sorted[j] == n;
    assert forall k :: 0 <= k < |batch| ==> sorted[k] == batch[k] && batch[k] in batch;
    AscendingIds(pending, m, n);
    BeforeIff(m, n);
  }

  // ---------------------------------------------------------------- send and heartbeat

  /** The message is appended undelivered, with the next id and with the next number of its channel. */
  ghost predicate Appended(s: State, s': State, msg: Message) {
    && s'.log == s.log + [Row(msg, {})] && s'.subscriptions == s.subscriptions
    && msg.id == |s.log| + 1 && msg.seqNo == |OnChannel(Messages(s.log), msg.channel)| + 1
  }

  lemma SendExactly(glob: Glob, store: Store, s: State, channel: string, sender: string, body: string,
                    correlationId: Option<string>, sentAt: real, replyTo: Option<string>) returns (msg: Message)
    requires Dense(s)
    ensures var (s', output) := Step(glob, store, s, Op.Send(channel, sender, body, correlationId, sentAt, replyTo));
      output == Silent && Appended(s, s', msg)
    ensures msg.channel == channel && msg.sender == sender && msg.body == body && msg.sentAt == sentAt
    ensures msg.correlationId == correlationId && msg.replyTo == replyTo
  {
    hide OnChannel;
    msg := Message(s.nextId, channel, sender, body, correlationId, sentAt, LastSeq(s.channelSeq, channel) + 1, replyTo);
    assert ChannelDense(Messages(s.log), LastSeq(s.channelSeq, channel), channel);
  }

  lemma HeartbeatExactly(glob: Glob, store: Store, s: State, agent: string, body: string, now: real) returns (msg: Message)
    requires Dense(s)
    ensures var (s', output) := Step(glob, store, s, Op.Heartbeat(agent, body, now)); output == Silent && Appended(s, s', msg)
    ensures msg.channel == "sox/presence" && msg.sender == "__server__" && msg.body == body && msg.sentAt == now
    ensures msg.correlationId == None && msg.replyTo == None
  {
    hide OnChannel;
    msg := Message(s.nextId, PRESENCE_CHANNEL, "__server__", body, None, now, LastSeq(s.channelSeq, PRESENCE_CHANNEL) + 1, None);
    assert ChannelDense(Messages(s.log), LastSeq(s.channelSeq, PRESENCE_CHANNEL), PRESENCE_CHANNEL);
  }

  // ---------------------------------------------------------------- subscriptions

  /** A subscribed pattern is held from then on, once, after those held before; nothing else changes. */
  lemma SubscribeExactly(glob: Glob, store: Store, s: State, agent: string, pattern: string)
    ensures var (s', output) := Step(glob, store, s, Op.Subscribe(agent, pattern));
      && output == Silent && s' == s.(subscriptions := s'.subscriptions)
      && (forall a, p :: Holds(s', a, p) <==> Holds(s, a, p) || (a == agent && p == pattern))
      && (forall a :: a != agent && a in s.subscriptions ==> a in s'.subscriptions && s'.subscriptions[a] == s.subscriptions[a])
      && (Holds(s, agent, pattern) ==> s'.subscriptions[agent] == s.subscriptions[agent])
      && (!Holds(s, agent, pattern) && agent in s.subscriptions ==> s'.subscriptions[agent] == s.subscriptions[agent] + [pattern])
  {
  }

  /** An unsubscribe leaves the agent exactly the patterns it did not name. The messages waiting on a channel
      that one of the patterns it did remove matches become delivered, and no others. */
  lemma UnsubscribeExactly(glob: Glob, store: Store, s: State, agent: string, patterns: seq<string>)
    requires IdsAscending(s.log)
    ensures var (s', output) := Step(glob, store, s, Op.Unsubscribe(agent, patterns));
      && output == Cleared(agent, output.messages)
      && s' == s.(log := s'.log, subscriptions := s'.subscriptions)
      && (forall a, p :: Holds(s', a, p) <==> Holds(s, a, p) && !(a == agent && p in patterns))
      && (forall m :: m in output.messages <==>
            Waiting(s.log, agent, m) && exists p :: p in patterns && Holds(s, agent, p) && glob(m.channel, p))
      && MarkedOnly(s.log, s'.log, agent, output.messages)
  {
    hide Undelivered, MarkedOnly, Filter;
    var removed := RemovedPatterns(s.subscriptions, agent, patterns);
    var wanted := Wanted(glob, removed, None);
    assert forall p :: p in removed <==> p in patterns && Holds(s, agent, p);
    UndeliveredMembers(s.log, agent, wanted);
    PendingStored(s.log, agent, wanted);
    BatchMarked(s.log, agent, Undelivered(s.log, agent, wanted));
  }

  /** The patterns reported as removed are the held ones that were named, the patterns left are the others,
      both in the order they were held in. */
  lemma RemovedAndKept(subscriptions: map<string, seq<string>>, agent: string, patterns: seq<string>)
    returns (gone: seq<nat>, kept: seq<nat>)
    ensures var held := if agent in subscriptions then subscriptions[agent] else [];
      && PickedAt(p => p in patterns, held, RemovedPatterns(subscriptions, agent, patterns), gone)
      && PickedAt(p => p !in patterns, held, KeptPatterns(subscriptions, agent, patterns), kept)
  {
    hide Filter;
    gone := FilterPicks(Named(patterns), PatternsFor(subscriptions, agent));
    kept := FilterPicks(NotNamed(patterns), PatternsFor(subscriptions, agent));
  }

  /** What leaving a group does to the subscriptions. */
  lemma DropExactly(glob: Glob, store: Store, s: State, agent: string, pattern: string)
    ensures var (s', output) := Step(glob, store, s, Op.DropPattern(agent, pattern));
      && output == Silent && s' == s.(subscriptions := s'.subscriptions)
      && forall a, p :: Holds(s', a, p) <==> Holds(s, a, p) && !(a == agent && p == pattern)
  {
    hide Filter;
  }

  // ---------------------------------------------------------------- watch and replay

  /** A watch starts at the highest id delivered to the agent, or at 0. */
  lemma {:induction false} StartMarkIs(log: Log, agent: string)
    ensures var mark := StartMark(log, agent);
      && mark >= 0
      && (forall i :: 0 <= i < |log| && agent in log[i].deliveredTo ==> log[i].msg.id <= mark)
      && (mark == 0 || exists i :: 0 <= i < |log| && agent in log[i].deliveredTo && log[i].msg.id == mark)
  {
    if log != [] {
      StartMarkIs(log[..|log| - 1], agent);
      assert forall i :: 0 <= i < |log| - 1 ==> log[..|log| - 1][i] == log[i];
    }
  }

  /** A poll yields, in order and each once, exactly the messages above the mark that wait on a channel a
      held pattern matches; the next mark is the highest id among them, or stays. */
  lemma PollExactly(glob: Glob, s: State, agent: string, mark: int)
    requires IdsAscending(s.log)
    ensures var batch := PollBatch(s.log, agent, Wanted(glob, PatternsFor(s.subscriptions, agent), None), mark);
      && InOrder(batch) && Distinct(batch)
      && forall m :: m in batch <==> Owed(glob, s, agent, None, m) && m.id > mark
  {
    hide Undelivered, Sort, Filter, Owed, Before, InOrder, Wanted;
    var wanted := Wanted(glob, PatternsFor(s.subscriptions, agent), None);
    var pending := Undelivered(s.log, agent, wanted);
    var above := Above(pending, mark);
    PendingIffOwed(glob, s, agent, None);
    UndeliveredAscending(s.log, agent, wanted);
    FilterAscending(Beyond(mark), pending);
    PollMembers(s.log, agent, wanted, mark);
    BacklogSorted(above);
    AscendingNoTies(above);
    PermutationDistinct(above, Sort(Before, above));
    MultisetMembers(Sort(Before, above), above);
    SortedBacklogInOrder(above);
  }

  lemma SortedBacklogInOrder(ms: seq<Message>)
    requires Ascending(ms)
    ensures InOrder(Sort(Before, ms))
  {
    hide Sort, Before, InOrder;
    var sorted := Sort(Before, ms);
    BacklogSorted(ms);
    AscendingNoTies(ms);
    PermutationDistinct(ms, sorted);
    MultisetMembers(sorted, ms);
    forall i, j | 0 <= i < j < |sorted| ensures sorted[i].id != sorted[j].id {
      AscendingIds(ms, sorted[i], sorted[j]);
    }
    SortedInOrder(sorted);
  }

  /** The message is stored on the channel and numbered within the bounds. */
  ghost predicate AskedAgain(log: Log, channel: string, since: int, until: Option<int>, m: Message) {
    && (exists i :: 0 <= i < |log| && log[i].msg == m)
    && m.channel == channel && since <= m.seqNo && (until.Some? ==> m.seqNo <= until.value)
  }

  /** A replay with a limit of zero or more returns messages of the channel within the bounds, by number and
      then by id, each once; those it leaves out come later, and it announces more exactly if there are any. */
  lemma ReplayExactly(log: Log, channel: string, since: int, until: Option<int>, limit: int)
    requires IdsAscending(log) && limit >= 0
    ensures var (page, more) := Replay(log, channel, since, until, limit);
      && |page| <= limit
      && (forall m :: m in page ==> AskedAgain(log, channel, since, until, m))
      && (forall i, j :: 0 <= i < j < |page| ==>
            page[i].seqNo < page[j].seqNo || (page[i].seqNo == page[j].seqNo && page[i].id < page[j].id))
      && (more ==> |page| == limit)
      && (more <==> exists m :: AskedAgain(log, channel, since, until, m) && m !in page)
      && forall m, n :: m in page && AskedAgain(log, channel, since, until, n) && n !in page ==>
           m.seqNo < n.seqNo || (m.seqNo == n.seqNo && m.id < n.id)
  {
    hide Range, AskedAgain;
    var whole := Range(log, channel, since, until);
    RangeSorted(log, channel, since, until);
    RangeAsked(log, channel, since, until);
    var (page, more) := Replay(log, channel, since, until, limit);
    assert page == whole[..|page|];
    RangeStrict(log, channel, since, until);
    if more {
      assert whole[limit] in whole && whole[limit] !in page;
    }
    forall n | n in whole && n !in page ensures more && exists j :: |page| <= j < |whole| && whole[j] == n {
      var j :| 0 <= j < |whole| && whole[j] == n;
      assert forall k :: 0 <= k < |page| ==> whole[k] == page[k] && page[k] in page;
    }
  }

  /** A negative limit leaves out that many from the end of what there is, and always announces more. */
  lemma NegativeLimit(log: Log, channel: string, since: int, until: Option<int>, limit: int, large: int)
    requires limit < 0 && large >= |log|
    ensures var (page, more) := Replay(log, channel, since, until, limit);
      var (all, _) := Replay(log, channel, since, until, large);
      more && page == if |all| + limit > 0 then all[..|all| + limit] else []
  {
    assert |Range(log, channel, since, until)| <= |log|;
  }

  lemma RangeAsked(log: Log, channel: string, since: int, until: Option<int>)
    requires IdsAscending(log)
    ensures forall m :: m in Range(log, channel, since, until) <==> AskedAgain(log, channel, since, until, m)
  {
    hide Range;
    RangeSorted(log, channel, since, until);
    forall m ensures m in Messages(log) <==> exists i :: 0 <= i < |log| && log[i].msg == m {
      if i :| 0 <= i < |log| && log[i].msg == m {
        assert Messages(log)[i] == m;
      }
    }
  }

  lemma RangeStrict(log: Log, channel: string, since: int, until: Option<int>)
    requires IdsAscending(log)
    ensures var whole := Range(log, channel, since, until);
      forall i, j :: 0 <= i < j < |whole| ==>
        whole[i].seqNo < whole[j].seqNo || (whole[i].seqNo == whole[j].seqNo && whole[i].id < whole[j].id)
  {
    hide Range;
    var whole := Range(log, channel, since, until);
    RangeSorted(log, channel, since, until);
    forall i, j | 0 <= i < j < |whole|
      ensures whole[i].seqNo < whole[j].seqNo || (whole[i].seqNo == whole[j].seqNo && whole[i].id < whole[j].id)
    {
      assert whole[i] in whole && whole[j] in whole;
      if whole[i].id == whole[j].id {
        SameId(log, whole[i], whole[j]);
      }
    }
  }
}
