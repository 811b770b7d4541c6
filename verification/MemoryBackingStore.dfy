/** The in-memory backing store: its methods, proved against the operations of StoreRuns and Groups. */
module MemoryBackingStore {
  import opened Options
  import opened Sorting
  import opened StoreModel
  import opened StoreRuns
  import opened StoreClearing
  import opened StoreWatch
  import StoreDrain
  import Groups

  class MemoryStore {
    const glob: Glob
    var messages: Log
    var subscriptions: map<string, seq<string>>
    var nextId: int
    var channelSeq: map<string, int>
    var groups: Groups.Table

    ghost function Contents(): State
      reads this
    {
      State(messages, subscriptions, channelSeq, nextId)
    }

    ghost predicate Valid()
      reads this
    {
      Dense(Contents()) && IdsAscending(messages)
    }

    constructor (glob: Glob)
      ensures Valid() && Contents() == INITIAL && groups == map[] && this.glob == glob
    {
      this.glob := glob;
      messages, subscriptions, nextId, channelSeq, groups := [], map[], 1, map[], map[];
      new;
      RunDense(glob, Memory, []);
    }

    /** Store one message; the depth reported is the number of messages on the channel nobody has received. */
    method Send(channel: string, sender: string, body: string, correlationId: Option<string>, replyTo: Option<string>, sentAt: real)
      returns (id: int, n: int, queueDepth: nat)
      requires Valid()
      modifies this`messages, this`nextId, this`channelSeq
      ensures Valid()
      ensures Contents() == Step(glob, Memory, old(Contents()), Op.Send(channel, sender, body, correlationId, sentAt, replyTo)).0
      ensures id == |messages| && n == |StoreDrain.OnChannel(Messages(messages), channel)|
      ensures messages == old(messages) + [Row(Message(id, channel, sender, body, correlationId, sentAt, n, replyTo), {})]
      ensures queueDepth == |Filter((r: Row) => r.msg.channel == channel && r.deliveredTo == {}, messages)|
    {
      AppendKeepsDense(Contents(), channel, sender, body, correlationId, sentAt, replyTo);
      id := nextId;
      nextId := nextId + 1;
      n := LastSeq(channelSeq, channel) + 1;
      channelSeq := channelSeq[channel := n];
      messages := messages + [Row(Message(id, channel, sender, body, correlationId, sentAt, n, replyTo), {})];
      assert ChannelDense(Messages(messages), LastSeq(channelSeq, channel), channel);
      queueDepth := QueueDepth(messages, channel);
    }

    /** The messages on a channel that have not been delivered to anybody. */
    static method QueueDepth(log: Log, channel: string) returns (depth: nat)
      ensures depth == |Filter((r: Row) => r.msg.channel == channel && r.deliveredTo == {}, log)|
    {
      depth := 0;
      ghost var waiting := (r: Row) => r.msg.channel == channel && r.deliveredTo == {};
      for i := 0 to |log|
        invariant depth == |Filter(waiting, log[..i])|
      {
        assert log[..i + 1] == log[..i] + [log[i]];
        FilterConcat(waiting, log[..i], [log[i]]);
        if log[i].msg.channel == channel && log[i].deliveredTo == {} {
          depth := depth + 1;
        }
      }
      assert log[..|log|] == log;
    }

    /** Record a heartbeat's presence message. */
    method Heartbeat(agent: string, body: string, now: real)
      requires Valid()
      modifies this`messages, this`nextId, this`channelSeq
      ensures Valid()
      ensures Contents() == Step(glob, Memory, old(Contents()), Op.Heartbeat(agent, body, now)).0
    {
      AppendKeepsDense(Contents(), PRESENCE_CHANNEL, "__server__", body, None, now, None);
      var n := LastSeq(channelSeq, PRESENCE_CHANNEL) + 1;
      channelSeq := channelSeq[PRESENCE_CHANNEL := n];
      var id := nextId;
      nextId := nextId + 1;
      messages := messages + [Row(Message(id, PRESENCE_CHANNEL, "__server__", body, None, now, n, None), {})];
    }

    method Subscribe(agent: string, pattern: string) returns (channels: seq<string>)
      requires Valid()
      modifies this`subscriptions
      ensures Valid()
      ensures Contents() == Step(glob, Memory, old(Contents()), Op.Subscribe(agent, pattern)).0
      ensures SortedBy(StringLe, channels) && Distinct(channels)
      ensures forall c :: c in channels <==> glob(c, pattern) && exists m :: m in Messages(messages) && m.channel == c
    {
      hide Filter, Sort, Dense, SortedBy;
      var patterns := PatternsFor(subscriptions, agent);
      if pattern !in patterns {
        patterns := patterns + [pattern];
      }
      subscriptions := subscriptions[agent := patterns];
      SameMessagesDense(old(Contents()), Contents());
      var known: seq<string> := [];
      for i := 0 to |messages|
        invariant Distinct(known)
        invariant forall c :: c in known <==> exists m :: m in Messages(messages)[..i] && m.channel == c
      {
        assert Messages(messages)[..i + 1] == Messages(messages)[..i] + [messages[i].msg];
        assert messages[i].msg in Messages(messages)[..i + 1];
        if messages[i].msg.channel !in known {
          known := known + [messages[i].msg.channel];
        }
      }
      assert Messages(messages)[..|messages|] == Messages(messages);
      StringOrder();
      var matching := Filter(OnePattern(glob, pattern), known);
      FilterDistinct(OnePattern(glob, pattern), known);
      channels := Sort(StringLe, matching);
      SortSorts(StringLe, matching);
      MultisetMembers(matching, channels);
      PermutationDistinct(matching, channels);
    }

    /** Mark every message of a batch delivered to the agent. */
    method MarkBatch(agent: string, batch: seq<Message>)
      requires Valid() && forall m :: m in batch ==> 1 <= m.id <= |messages|
      modifies this`messages
      ensures Valid() && messages == MarkDelivered(old(messages), agent, Ids(batch))
    {
      assert MarkDelivered(messages, agent, Ids(batch[..0])) == messages;
      for k := 0 to |batch|
        invariant messages == MarkDelivered(old(messages), agent, Ids(batch[..k]))
      {
        var i := batch[k].id - 1;
        assert batch[k] in batch && batch[..k + 1] == batch[..k] + [batch[k]];
        assert Ids(batch[..k + 1]) == Ids(batch[..k]) + {i + 1};
        assert old(messages)[i].msg.id == i + 1;
        messages := messages[i := Row(messages[i].msg, messages[i].deliveredTo + {agent})];
      }
      assert batch[..|batch|] == batch;
      MarkKeepsDense(old(Contents()), Contents(), agent, Ids(batch));
    }

    method Recv(agent: string, channels: Option<seq<string>>, max: int) returns (batch: seq<Message>)
      requires Valid()
      modifies this`messages
      ensures Valid()
      ensures (Contents(), Output.Returned(agent, batch)) == Step(glob, Memory, old(Contents()), Op.Receive(agent, channels, max))
    {
      hide Sort, Undelivered, Filter;
      var wanted := Wanted(glob, PatternsFor(subscriptions, agent), channels);
      var eligible := Select(messages, agent, wanted, max);
      batch := Sort(Before, eligible);
      BatchIds(agent, wanted, eligible, batch);
      MarkBatch(agent, batch);
      assert Ids(batch) == Ids(eligible) by { MultisetMembers(batch, eligible); }
    }

    /** Scan the log for wanted messages, stopping once there are `max`. */
    static method Select(log: Log, agent: string, wanted: string -> bool, max: int) returns (eligible: seq<Message>)
      ensures eligible == Take(Undelivered(log, agent, wanted), max)
    {
      eligible := [];
      var i := 0;
      while i < |log| && |eligible| < max
        invariant 0 <= i <= |log|
        invariant eligible == Undelivered(log[..i], agent, wanted)
        invariant |eligible| <= max || (max <= 0 && eligible == [])
      {
        assert log[..i + 1][..i] == log[..i];
        if agent !in log[i].deliveredTo && wanted(log[i].msg.channel) {
          eligible := eligible + [log[i].msg];
        }
        i := i + 1;
      }
      UndeliveredPrefix(log, agent, wanted, i);
      assert i == |log| ==> log[..i] == log;
    }

    /** A batch consists of stored messages. */
    lemma BatchIds(agent: string, wanted: string -> bool, eligible: seq<Message>, batch: seq<Message>)
      requires Valid() && eligible <= Undelivered(messages, agent, wanted)
      requires multiset(batch) == multiset(eligible)
      ensures forall m :: m in batch ==> 1 <= m.id <= |messages|
    {
      UndeliveredMembers(messages, agent, wanted);
      MultisetMembers(batch, eligible);
      forall m | m in batch ensures 1 <= m.id <= |messages| {
        assert m in Undelivered(messages, agent, wanted);
      }
    }

    /** Mark the undelivered messages that match one pattern, counting them. */
    method ClearMatching(agent: string, pattern: string) returns (cleared: nat)
      requires Valid()
      modifies this`messages
      ensures Valid() && messages == ClearRows(old(messages), agent, OnePattern(glob, pattern))
      ensures cleared == |Undelivered(old(messages), agent, OnePattern(glob, pattern))|
    {
      hide Undelivered, Dense, ClearRows, MarkDelivered;
      ghost var wanted := OnePattern(glob, pattern);
      ghost var before := messages;
      cleared := 0;
      assert Undelivered(before[..0], agent, wanted) == [] by { NoRows(agent, wanted, before[..0]); }
      for i := 0 to |messages|
        invariant |messages| == |before|
        invariant forall j :: 0 <= j < i ==> messages[j] == if wanted(before[j].msg.channel) then Deliver(before[j], agent) else before[j]
        invariant forall j :: i <= j < |before| ==> messages[j] == before[j]
        invariant cleared == |Undelivered(before[..i], agent, wanted)|
      {
        var row := messages[i];
        UndeliveredNext(before, agent, wanted, i);
        if agent !in row.deliveredTo && glob(row.msg.channel, pattern) {
          messages := messages[i := Row(row.msg, row.deliveredTo + {agent})];
          cleared := cleared + 1;
        } else if agent in row.deliveredTo {
          DeliverAgain(row, agent);
        }
      }
      assert messages == ClearRows(before, agent, wanted);
      assert before[..|before|] == before;
      ClearRowsMarks(before, agent, wanted);
      MarkKeepsDense(old(Contents()), Contents(), agent, Ids(Undelivered(before, agent, wanted)));
    }

    /** Go through the agent's subscriptions; each one named in `patterns` has its backlog discarded. */
    method ClearPatterns(agent: string, existing: seq<string>, patterns: seq<string>)
      returns (removed: seq<string>, newPatterns: seq<string>, pendingCleared: nat)
      requires Valid()
      modifies this`messages
      ensures Valid()
      ensures removed == Filter(Named(patterns), existing)
      ensures newPatterns == Filter(NotNamed(patterns), existing)
      ensures messages == ClearRows(old(messages), agent, Wanted(glob, removed, None))
      ensures pendingCleared == |Undelivered(old(messages), agent, Wanted(glob, removed, None))|
    {
      hide Sort, Undelivered, ClearRows, MarkDelivered, Dense, Filter;
      removed, newPatterns, pendingCleared := [], [], 0;
      FilterEmpty(Named(patterns));
      FilterEmpty(NotNamed(patterns));
      ghost var before := messages;
      NothingCleared(before, agent, Wanted(glob, [], None));
      for k := 0 to |existing|
        invariant Valid()
        invariant removed == Filter(Named(patterns), existing[..k])
        invariant newPatterns == Filter(NotNamed(patterns), existing[..k])
        invariant messages == ClearRows(before, agent, Wanted(glob, removed, None))
        invariant pendingCleared == |Undelivered(before, agent, Wanted(glob, removed, None))|
      {
        var p := existing[k];
        FilterNext(Named(patterns), existing, k);
        FilterNext(NotNamed(patterns), existing, k);
        if p in patterns {
          ClearInTurn(before, agent, Wanted(glob, removed, None), OnePattern(glob, p), Wanted(glob, removed + [p], None));
          var cleared := ClearMatching(agent, p);
          removed := removed + [p];
          pendingCleared := pendingCleared + cleared;
        } else {
          newPatterns := newPatterns + [p];
        }
      }
      assert existing[..|existing|] == existing;
    }

    /** Remove the named subscriptions, discarding pattern by pattern what they had queued. */
    method Unsubscribe(agent: string, patterns: seq<string>) returns (removed: seq<string>, pendingCleared: nat)
      requires Valid()
      modifies this`messages, this`subscriptions
      ensures Valid()
      ensures Contents() == Step(glob, Memory, old(Contents()), Op.Unsubscribe(agent, patterns)).0
      ensures removed == RemovedPatterns(old(subscriptions), agent, patterns)
      ensures pendingCleared == |Discarded(glob, old(Contents()), agent, patterns)|
    {
      hide Sort, Undelivered, ClearRows, MarkDelivered, Filter;
      var existing := PatternsFor(subscriptions, agent);
      var newPatterns;
      removed, newPatterns, pendingCleared := ClearPatterns(agent, existing, patterns);
      ClearRowsMarks(old(messages), agent, Wanted(glob, removed, None));
      subscriptions := subscriptions[agent := newPatterns];
    }

    /** The starting mark of a watch: the highest id delivered to the agent. */
    method WatchStart(agent: string) returns (lastSeenId: int)
      requires Valid()
      ensures lastSeenId == StartMark(messages, agent)
    {
      lastSeenId := 0;
      for i := 0 to |messages|
        invariant lastSeenId == StartMark(messages[..i], agent)
      {
        assert messages[..i + 1][..i] == messages[..i];
        if agent in messages[i].deliveredTo && messages[i].msg.id > lastSeenId {
          lastSeenId := messages[i].msg.id;
        }
      }
      assert messages[..|messages|] == messages;
    }

    /** One poll of a watch: the new messages for the agent, and the mark after them. */
    method WatchPoll(agent: string, lastSeenId: int) returns (batch: seq<Message>, mark: int)
      requires Valid()
      ensures batch == PollBatch(messages, agent, Wanted(glob, PatternsFor(subscriptions, agent), None), lastSeenId)
      ensures mark == NextMark(batch, lastSeenId)
    {
      hide Sort, Undelivered, Filter, Dense;
      var patterns := PatternsFor(subscriptions, agent);
      var wanted := Wanted(glob, patterns, None);
      NoRows(agent, wanted, messages[..0]);
      FilterEmpty(Beyond(lastSeenId));
      var fresh_: seq<Message> := [];
      for i := 0 to |messages|
        invariant fresh_ == Above(Undelivered(messages[..i], agent, wanted), lastSeenId)
      {
        var row := messages[i];
        BacklogAbove(messages, agent, wanted, lastSeenId, i);
        if row.msg.id > lastSeenId && agent !in row.deliveredTo && MatchesAny(glob, patterns, row.msg.channel) {
          fresh_ := fresh_ + [row.msg];
        }
      }
      assert messages[..|messages|] == messages;
      batch := Sort(Before, fresh_);
      mark := NextMark(batch, lastSeenId);
    }

    // -------------------------------------------------------------- groups

    method GroupCreate(creator: string, group: string, now: real)
      requires Valid()
      modifies this`groups, this`subscriptions
      ensures Valid() && groups == Groups.Apply(old(groups), Groups.Create(creator, group, now))
      ensures Contents() == Step(glob, Memory, old(Contents()), Op.Subscribe(creator, group)).0
    {
      groups := groups[group := [Groups.Member(creator, Groups.Active, now)]];
      subscriptions := subscriptions[creator := AddPattern(PatternsFor(subscriptions, creator), group)];
    }

    /** Refused, with nothing changed, unless the inviter is an active member. */
    method GroupInvite(inviter: string, group: string, invitee: string, now: real) returns (invited: bool)
      requires Valid()
      modifies this`groups
      ensures Valid() && groups == Groups.Apply(old(groups), Groups.Invite(inviter, group, invitee, now))
      ensures invited <==> Groups.ActiveIn(Groups.MembersOf(old(groups), group), inviter)
    {
      var members := Groups.MembersOf(groups, group);
      if !Groups.ActiveIn(members, inviter) {
        return false;
      }
      if !Groups.Listed(members, invitee) {
        members := members + [Groups.Member(invitee, Groups.Invited, now)];
      }
      groups := groups[group := members];
      return true;
    }

    method GroupJoin(agent: string, group: string, now: real) returns (memberCount: nat)
      requires Valid()
      modifies this`groups, this`subscriptions
      ensures Valid() && groups == Groups.Apply(old(groups), Groups.Join(agent, group, now))
      ensures Contents() == Step(glob, Memory, old(Contents()), Op.Subscribe(agent, group)).0
      ensures memberCount == |Filter((m: Groups.Member) => m.status.Active?, Groups.MembersOf(groups, group))|
    {
      var members := Accept(Groups.MembersOf(groups, group), agent, now);
      if group in groups {
        groups := groups[group := members];
      }
      subscriptions := subscriptions[agent := AddPattern(PatternsFor(subscriptions, agent), group)];
      memberCount := |Filter((m: Groups.Member) => m.status.Active?, members)|;
    }

    /** Turn the first pending invitation of the agent into an active membership. */
    static method Accept(members0: seq<Groups.Member>, agent: string, now: real) returns (members: seq<Groups.Member>)
      ensures members == Groups.Activate(members0, agent, now)
    {
      hide Groups.Activate;
      members := members0;
      Groups.ActivateNothing(agent, now);
      assert members0[..0] == [] && members0[0..] == members0 && members0[|members0|..] == [];
      for k := 0 to |members|
        invariant members == members0
        invariant Groups.Activate(members0, agent, now) == members0[..k] + Groups.Activate(members0[k..], agent, now)
      {
        Groups.ActivateFrom(members0, agent, now, k);
        assert members0[..k + 1] == members0[..k] + [members0[k]];
        if members[k].agent == agent && members[k].status.Invited? {
          members := members[k := Groups.Member(agent, Groups.Active, now)];
          assert members == members0[..k] + [members[k]] + members0[k + 1..];
          return;
        }
      }
    }

    method GroupLeave(agent: string, group: string)
      requires Valid()
      modifies this`groups, this`subscriptions
      ensures Valid() && groups == Groups.Apply(old(groups), Groups.Leave(agent, group))
      ensures Contents() == Step(glob, Memory, old(Contents()), Op.DropPattern(agent, group)).0
    {
      groups := groups[group := Filter((m: Groups.Member) => m.agent != agent, Groups.MembersOf(groups, group))];
      subscriptions := subscriptions[agent := Filter(p => p != group, PatternsFor(subscriptions, agent))];
    }
  }

  lemma BacklogAbove(log: Log, agent: string, wanted: string -> bool, mark: int, k: nat)
    requires k < |log|
    ensures Above(Undelivered(log[..k + 1], agent, wanted), mark) ==
      if Pending(log[k], agent, wanted) && log[k].msg.id > mark then Above(Undelivered(log[..k], agent, wanted), mark) + [log[k].msg]
      else Above(Undelivered(log[..k], agent, wanted), mark)
  {
    hide Undelivered;
    UndeliveredNext(log, agent, wanted, k);
    FilterConcat(Beyond(mark), Undelivered(log[..k], agent, wanted), [log[k].msg]);
  }

  lemma NoRows(agent: string, wanted: string -> bool, log: Log)
    requires log == []
    ensures Undelivered(log, agent, wanted) == []
  {
  }

  lemma {:induction false} NothingCleared(log: Log, agent: string, wanted: string -> bool)
    requires forall c :: !wanted(c)
    ensures ClearRows(log, agent, wanted) == log && Undelivered(log, agent, wanted) == []
  {
    assert ClearRows(log, agent, wanted) == log;
    if log != [] {
      NothingCleared(log[..|log| - 1], agent, wanted);
    }
  }
}
