/** The SQLite backing store: the same operations over a messages table and a subscriptions table. */
module SqliteBackingStore {
  import opened Options
  import opened Sorting
  import opened StoreModel
  import opened StoreRuns
  import opened StoreClearing
  import opened StoreWatch
  import opened StoreDrain
  import StoreReplay

  type SubscriptionTable = seq<(string, string)>

  /** SELECT channel_pattern FROM subscriptions WHERE agent_id = ? */
  function PatternsIn(table: SubscriptionTable, agent: string): seq<string> {
    if table == [] then []
    else
      var last := table[|table| - 1];
      PatternsIn(table[..|table| - 1], agent) + if last.0 == agent then [last.1] else []
  }

  ghost function SubscriptionMap(table: SubscriptionTable): map<string, seq<string>> {
    map r | r in table :: r.0 := PatternsIn(table, r.0)
  }

  lemma {:induction false} NoPatterns(table: SubscriptionTable, agent: string)
    requires forall r :: r in table ==> r.0 != agent
    ensures PatternsIn(table, agent) == []
  {
    if table != [] {
      assert table[|table| - 1] in table;
      NoPatterns(table[..|table| - 1], agent);
    }
  }

  lemma MapAgreesWithTable(table: SubscriptionTable, agent: string)
    ensures PatternsFor(SubscriptionMap(table), agent) == PatternsIn(table, agent)
  {
    if agent !in SubscriptionMap(table) {
      forall r | r in table ensures r.0 != agent {
        assert r.0 in SubscriptionMap(table);
      }
      NoPatterns(table, agent);
    }
  }

  function NotDeleted(agent: string, removed: seq<string>): ((string, string)) -> bool {
    (r: (string, string)) => !(r.0 == agent && r.1 in removed)
  }

  lemma PatternsAppend(table: SubscriptionTable, r: (string, string), agent: string)
    ensures PatternsIn(table + [r], agent)
         == if r.0 == agent then PatternsIn(table, agent) + [r.1] else PatternsIn(table, agent)
  {
    assert (table + [r])[..|table|] == table;
  }

  /** DELETE FROM subscriptions WHERE agent_id = ? AND channel_pattern = ?, for every removed pattern. */
  lemma {:induction false} DeletedPatterns(table: SubscriptionTable, agent: string, removed: seq<string>, other: string)
    ensures PatternsIn(Filter(NotDeleted(agent, removed), table), other)
         == if other == agent then Filter(NotNamed(removed), PatternsIn(table, agent)) else PatternsIn(table, other)
  {
    hide Filter, PatternsIn;
    var keep := NotDeleted(agent, removed);
    if table == [] {
      EmptyTable(agent, removed, other);
    } else {
      var n := |table| - 1;
      var last := table[n];
      DeletedPatterns(table[..n], agent, removed, other);
      assert table == table[..n] + [last] && table[..n + 1] == table;
      PatternsAppend(table[..n], last, other);
      PatternsAppend(Filter(keep, table[..n]), last, other);
      FilterNext(keep, table, n);
      assert keep(last) == !(last.0 == agent && last.1 in removed);
      FilterAppend(NotNamed(removed), PatternsIn(table[..n], other), last.1);
    }
  }

  lemma EmptyTable(agent: string, removed: seq<string>, other: string)
    ensures PatternsIn(Filter(NotDeleted(agent, removed), []), other) == [] == Filter(NotNamed(removed), PatternsIn([], agent))
    ensures PatternsIn([], other) == []
  {
  }

  lemma FilterAppend(p: string -> bool, s: seq<string>, x: string)
    ensures Filter(p, s + [x]) == if p(x) then Filter(p, s) + [x] else Filter(p, s)
  {
    FilterConcat(p, s, [x]);
  }

  // ---------------------------------------------------------------- ORDER BY channel, sent_at, id

  predicate RowBefore(r: Row, s: Row) {
    Before(r.msg, s.msg)
  }

  lemma {:induction false} UndeliveredConcat(s: Log, t: Log, agent: string, wanted: string -> bool)
    ensures Undelivered(s + t, agent, wanted) == Undelivered(s, agent, wanted) + Undelivered(t, agent, wanted)
  {
    if t == [] {
      assert s + t == s;
    } else {
      assert (s + t)[..|s + t| - 1] == s + t[..|t| - 1];
      UndeliveredConcat(s, t[..|t| - 1], agent, wanted);
    }
  }

  lemma UndeliveredHead(row: Row, rest: Log, agent: string, wanted: string -> bool)
    ensures Undelivered([row] + rest, agent, wanted)
         == if Pending(row, agent, wanted) then [row.msg] + Undelivered(rest, agent, wanted) else Undelivered(rest, agent, wanted)
  {
    UndeliveredConcat([row], rest, agent, wanted);
    assert [row][..0] == [];
    assert [] + Undelivered(rest, agent, wanted) == Undelivered(rest, agent, wanted);
  }

  lemma RowOrder()
    ensures TotalPreorder(RowBefore)
  {
    BeforeOrder();
  }

  lemma InsortPast(a: Message, s: seq<Message>, x: Message)
    requires Before(a, x)
    ensures Insort(Before, [a] + s, x) == [a] + Insort(Before, s, x)
  {
    assert ([a] + s)[1..] == s;
  }

  lemma {:induction false} InsortScan(rows: Log, x: Row, agent: string, wanted: string -> bool)
    requires SortedBy(RowBefore, rows)
    ensures Undelivered(Insort(RowBefore, rows, x), agent, wanted)
         == if Pending(x, agent, wanted) then Insort(Before, Undelivered(rows, agent, wanted), x.msg)
            else Undelivered(rows, agent, wanted)
  {
    hide Undelivered;
    if rows == [] {
      UndeliveredHead(x, [], agent, wanted);
      UndeliveredNothing(agent, wanted);
      assert [x] + [] == [x];
    } else if RowBefore(rows[0], x) {
      var head, rest := rows[0], rows[1..];
      InsortScan(rest, x, agent, wanted);
      InsortCons(RowBefore, rows, x);
      hide Insort;
      Parts(rows, 1);
      assert rows[..1] == [head];
      UndeliveredHead(head, rest, agent, wanted);
      UndeliveredHead(head, Insort(RowBefore, rest, x), agent, wanted);
      InsortPast(head.msg, Undelivered(rest, agent, wanted), x.msg);
    } else {
      UndeliveredHead(x, rows, agent, wanted);
      LargerFirst(rows, x, agent, wanted);
    }
  }

  lemma UndeliveredNothing(agent: string, wanted: string -> bool)
    ensures Undelivered([], agent, wanted) == []
  {
  }

  /** Everything pending in sorted rows that start after `x` comes after `x`. */
  lemma LargerFirst(rows: Log, x: Row, agent: string, wanted: string -> bool)
    requires rows != [] && SortedBy(RowBefore, rows) && !RowBefore(rows[0], x)
    ensures Insort(Before, Undelivered(rows, agent, wanted), x.msg) == [x.msg] + Undelivered(rows, agent, wanted)
  {
    var pending := Undelivered(rows, agent, wanted);
    if pending != [] {
      UndeliveredMembers(rows, agent, wanted);
      assert pending[0] in pending;
      var i :| 0 <= i < |rows| && rows[i].msg == pending[0];
      BeforeOrder();
      assert i > 0 ==> RowBefore(rows[0], rows[i]);
    }
  }

  lemma SortAppend(s: seq<Message>, x: Message)
    ensures Sort(Before, s + [x]) == Insort(Before, Sort(Before, s), x)
  {
    assert (s + [x])[..|s|] == s;
  }

  lemma SortNothing()
    ensures Sort(RowBefore, []) == [] && Sort(Before, []) == []
  {
  }

  lemma RowsSorted(rows: Log)
    ensures SortedBy(RowBefore, Sort(RowBefore, rows))
  {
    RowOrder();
    SortSorts(RowBefore, rows);
  }

  /** Scanning the sorted table finds the pending messages in sorted order. */
  lemma {:induction false} SortedScan(rows: Log, agent: string, wanted: string -> bool)
    ensures Undelivered(Sort(RowBefore, rows), agent, wanted) == Sort(Before, Undelivered(rows, agent, wanted))
  {
    hide Undelivered, Insort, Sort, SortedBy, RowBefore, Before, Pending;
    if rows == [] {
      UndeliveredNothing(agent, wanted);
      SortNothing();
    } else {
      var init, last := rows[..|rows| - 1], rows[|rows| - 1];
      SortedScan(init, agent, wanted);
      SortLast(RowBefore, rows);
      RowsSorted(init);
      InsortScan(Sort(RowBefore, init), last, agent, wanted);
      UndeliveredNext(rows, agent, wanted, |init|);
      assert rows[..|init| + 1] == rows;
      SortAppend(Undelivered(init, agent, wanted), last.msg);
    }
  }

  function RowBeyond(mark: int): Row -> bool {
    (row: Row) => row.msg.id > mark
  }

  lemma {:induction false} ScanBeyond(rows: Log, agent: string, wanted: string -> bool, mark: int)
    ensures Undelivered(Filter(RowBeyond(mark), rows), agent, wanted) == Above(Undelivered(rows, agent, wanted), mark)
  {
    hide Undelivered;
    if rows == [] {
      UndeliveredNothing(agent, wanted);
    } else {
      var row, rest := rows[0], rows[1..];
      ScanBeyond(rest, agent, wanted, mark);
      Parts(rows, 1);
      assert rows[..1] == [row];
      UndeliveredHead(row, rest, agent, wanted);
      UndeliveredHead(row, Filter(RowBeyond(mark), rest), agent, wanted);
      FilterCons(Beyond(mark), row.msg, Undelivered(rest, agent, wanted));
      FilterCons(RowBeyond(mark), row, rest);
      hide Filter;
    }
  }

  // ---------------------------------------------------------------- sequence numbers

  /** SELECT COALESCE(MAX(seq), 0) FROM messages WHERE channel = ? */
  function MaxSeq(rows: Log, channel: string): int {
    if rows == [] then 0
    else
      var rest, last := MaxSeq(rows[..|rows| - 1], channel), rows[|rows| - 1].msg;
      if last.channel == channel && last.seqNo > rest then last.seqNo else rest
  }

  lemma {:induction false} MaxSeqBounds(rows: Log, channel: string)
    ensures var top := MaxSeq(rows, channel);
      var line := OnChannel(Messages(rows), channel);
      && (forall m :: m in line ==> m.seqNo <= top)
      && (top == 0 || exists m :: m in line && m.seqNo == top)
      && top >= 0
  {
    if rows != [] {
      var n := |rows| - 1;
      MaxSeqBounds(rows[..n], channel);
      assert Messages(rows) == Messages(rows[..n]) + [rows[n].msg];
      OnChannelConcat(Messages(rows[..n]), [rows[n].msg], channel);
      var line, before := OnChannel(Messages(rows), channel), OnChannel(Messages(rows[..n]), channel);
      assert forall m :: m in line <==> m in before || (m == rows[n].msg && m.channel == channel);
    }
  }

  /** In a dense store the maximum is the channel's counter. */
  lemma MaxSeqIsCounter(s: State, channel: string)
    requires Dense(s)
    ensures MaxSeq(s.log, channel) == LastSeq(s.channelSeq, channel)
  {
    var line := OnChannel(Messages(s.log), channel);
    assert ChannelDense(Messages(s.log), LastSeq(s.channelSeq, channel), channel);
    MaxSeqBounds(s.log, channel);
    if line != [] {
      assert line[|line| - 1] in line;
    }
  }

  lemma DenseChannel(s: State, channel: string)
    requires Dense(s)
    ensures ChannelDense(Messages(s.log), LastSeq(s.channelSeq, channel), channel)
  {
  }

  function Insert(rows: Log, msg: Message): Log {
    rows + [Row(msg, {})]
  }

  /** Two sends that both read the maximum before either inserts give their messages the same number, and
      then some page size makes a client that pages through the channel miss one of them. */
  lemma RacingSendsShareNumber(rows: Log, channel: string, id: int)
    requires IdsAscending(rows) && forall i :: 0 <= i < |rows| ==> rows[i].msg.id < id
    ensures var n := MaxSeq(rows, channel) + 1;
      var rows' := Insert(Insert(rows, Message(id, channel, "a", "", None, 0.0, n, None)),
                          Message(id + 1, channel, "b", "", None, 0.0, n, None));
      && IdsAscending(rows')
      && exists limit :: limit >= 1 && StoreReplay.PageAll(rows', channel, n, None, limit) != StoreReplay.Range(rows', channel, n, None)
  {
    hide Sort, Filter, MaxSeq;
    var n := MaxSeq(rows, channel) + 1;
    var first := Message(id, channel, "a", "", None, 0.0, n, None);
    var second := Message(id + 1, channel, "b", "", None, 0.0, n, None);
    var rows' := Insert(Insert(rows, first), second);
    var whole := StoreReplay.Range(rows', channel, n, None);
    assert first in whole && second in whole by {
      StoreReplay.RangeSorted(rows', channel, n, None);
      assert Messages(rows')[|rows|] == first && Messages(rows')[|rows| + 1] == second;
    }
    SharedIsNotDistinct(whole, first, second);
    StoreReplay.PagingCompleteIffDistinct(rows', channel, n, None);
  }

  lemma SharedIsNotDistinct(ms: seq<Message>, a: Message, b: Message)
    requires a in ms && b in ms && a != b && a.seqNo == b.seqNo
    ensures !StoreReplay.NumbersDistinct(ms)
  {
    var i :| 0 <= i < |ms| && ms[i] == a;
    var j :| 0 <= j < |ms| && ms[j] == b;
    if i < j {
      assert ms[i].seqNo >= ms[j].seqNo;
    } else {
      assert ms[j].seqNo >= ms[i].seqNo;
    }
  }

  // ---------------------------------------------------------------- the store

  class SqliteStore {
    const glob: Glob
    var rows: Log
    var subscriptions: SubscriptionTable
    ghost var counters: map<string, int>

    ghost function Contents(): State
      reads this
    {
      State(rows, SubscriptionMap(subscriptions), counters, |rows| + 1)
    }

    ghost predicate Valid()
      reads this
    {
      Dense(Contents()) && IdsAscending(rows)
    }

    constructor (glob: Glob)
      ensures Valid() && rows == [] && subscriptions == [] && this.glob == glob
    {
      this.glob := glob;
      rows, subscriptions, counters := [], [], map[];
      new;
      RunDense(glob, Sqlite, []);
      forall c ensures ChannelDense(Messages(rows), LastSeq(counters, c), c) {
        assert Messages(rows) == [];
      }
    }

    /** A send that no other send interleaves with. The depth reported is the number of messages the channel
        held before it, delivered ones included. */
    method Send(channel: string, sender: string, body: string, correlationId: Option<string>, replyTo: Option<string>, sentAt: real)
      returns (id: int, n: int, queueDepth: nat)
      requires Valid()
      modifies this`rows, this`counters
      ensures Valid()
      ensures Contents() == Step(glob, Sqlite, old(Contents()), Op.Send(channel, sender, body, correlationId, sentAt, replyTo)).0
      ensures id == |rows| && n == MaxSeq(rows, channel) && queueDepth == n - 1
      ensures rows == old(rows) + [Row(Message(id, channel, sender, body, correlationId, sentAt, n, replyTo), {})]
    {
      hide Dense;
      AppendKeepsDense(Contents(), channel, sender, body, correlationId, sentAt, replyTo);
      MaxSeqIsCounter(Contents(), channel);
      AppendAscending(Contents(), channel, sender, body, correlationId, sentAt, replyTo);
      n := MaxSeq(rows, channel) + 1;
      queueDepth := |OnChannel(Messages(rows), channel)|;
      assert ChannelDense(Messages(rows), LastSeq(counters, channel), channel) by { DenseChannel(Contents(), channel); }
      id := |rows| + 1;
      rows := rows + [Row(Message(id, channel, sender, body, correlationId, sentAt, n, replyTo), {})];
      counters := counters[channel := n];
      MaxSeqIsCounter(Contents(), channel);
    }

    /** INSERT OR IGNORE, then the known channels the pattern matches, in no particular order. */
    method Subscribe(agent: string, pattern: string) returns (channels: seq<string>)
      requires Valid()
      modifies this`subscriptions
      ensures Valid() && rows == old(rows)
      ensures var after := Step(glob, Sqlite, old(Contents()), Op.Subscribe(agent, pattern)).0;
        forall a :: PatternsIn(subscriptions, a) == PatternsFor(after.subscriptions, a)
      ensures Distinct(channels)
      ensures forall c :: c in channels <==> glob(c, pattern) && exists m :: m in Messages(rows) && m.channel == c
    {
      hide Dense, PatternsIn, Filter, MaxSeq, Distinct;
      ghost var before := Contents();
      subscriptions := InsertOrIgnore(subscriptions, agent, pattern);
      SameMessagesDense(before, Contents());
      forall a ensures PatternsIn(subscriptions, a) ==
        if a == agent then AddPattern(PatternsIn(old(subscriptions), agent), pattern) else PatternsIn(old(subscriptions), a)
      {
        PatternsAfterInsert(old(subscriptions), agent, pattern, a);
      }
      forall a ensures PatternsFor(before.subscriptions, a) == PatternsIn(old(subscriptions), a) {
        MapAgreesWithTable(old(subscriptions), a);
      }
      channels := MatchingChannels(pattern);
    }

    /** SELECT DISTINCT over the message table. */
    method MatchingChannels(pattern: string) returns (channels: seq<string>)
      ensures Distinct(channels)
      ensures forall c :: c in channels <==> glob(c, pattern) && exists m :: m in Messages(rows) && m.channel == c
    {
      channels := [];
      for i := 0 to |rows|
        invariant Distinct(channels)
        invariant forall c :: c in channels <==> glob(c, pattern) && exists m :: m in Messages(rows)[..i] && m.channel == c
      {
        assert Messages(rows)[..i + 1] == Messages(rows)[..i] + [rows[i].msg];
        assert rows[i].msg in Messages(rows)[..i + 1];
        if rows[i].msg.channel !in channels && glob(rows[i].msg.channel, pattern) {
          channels := channels + [rows[i].msg.channel];
        }
      }
      assert Messages(rows)[..|rows|] == Messages(rows);
    }

    /** The starting mark of a watch. */
    method WatchStart(agent: string) returns (maxId: int)
      requires Valid()
      ensures maxId == StartMark(rows, agent)
    {
      maxId := 0;
      for i := 0 to |rows|
        invariant maxId == StartMark(rows[..i], agent)
      {
        assert rows[..i + 1][..i] == rows[..i];
        if agent in rows[i].deliveredTo {
          maxId := if rows[i].msg.id > maxId then rows[i].msg.id else maxId;
        }
      }
      assert rows[..|rows|] == rows;
    }

    /** Scan the sorted table for wanted rows, stopping once `max` have been taken. */
    static method Select(sorted: Log, agent: string, wanted: string -> bool, max: int) returns (eligible: seq<Message>)
      ensures eligible == Take(Undelivered(sorted, agent, wanted), if max < 1 then 1 else max)
    {
      eligible := [];
      for i := 0 to |sorted|
        invariant eligible == Undelivered(sorted[..i], agent, wanted)
        invariant |eligible| < max || eligible == []
      {
        assert sorted[..i + 1][..i] == sorted[..i];
        if agent !in sorted[i].deliveredTo && wanted(sorted[i].msg.channel) {
          eligible := eligible + [sorted[i].msg];
          if |eligible| >= max {
            UndeliveredPrefix(sorted, agent, wanted, i + 1);
            return;
          }
        }
      }
      assert sorted[..|sorted|] == sorted;
    }

    /** UPDATE messages SET delivered_to = ... for every selected row. */
    method MarkBatch(agent: string, batch: seq<Message>)
      requires Valid() && forall m :: m in batch ==> 1 <= m.id <= |rows|
      modifies this`rows
      ensures Valid() && rows == MarkDelivered(old(rows), agent, Ids(batch))
    {
      assert MarkDelivered(rows, agent, Ids(batch[..0])) == rows;
      for k := 0 to |batch|
        invariant rows == MarkDelivered(old(rows), agent, Ids(batch[..k]))
      {
        var i := batch[k].id - 1;
        assert batch[k] in batch && batch[..k + 1] == batch[..k] + [batch[k]];
        assert Ids(batch[..k + 1]) == Ids(batch[..k]) + {i + 1};
        assert old(rows)[i].msg.id == i + 1;
        if rows[i] != old(rows)[i] {
          DeliverAgain(rows[i], agent);
        }
        rows := rows[i := Row(rows[i].msg, rows[i].deliveredTo + {agent})];
      }
      assert batch[..|batch|] == batch;
      assert Messages(rows) == Messages(old(rows));
    }

    method Recv(agent: string, channels: Option<seq<string>>, max: int) returns (batch: seq<Message>)
      requires Valid()
      modifies this`rows
      ensures Valid()
      ensures (Contents(), Output.Returned(agent, batch)) == Step(glob, Sqlite, old(Contents()), Op.Receive(agent, channels, max))
    {
      hide Sort, Undelivered, Dense, Filter;
      var patterns := PatternsIn(subscriptions, agent);
      MapAgreesWithTable(subscriptions, agent);
      var wanted := Wanted(glob, patterns, channels);
      if channels.None? && patterns == [] {
        NothingWanted(rows, agent, wanted);
        EmptyBatch(rows, agent, max);
        return [];
      }
      batch := Select(Sort(RowBefore, rows), agent, wanted, max);
      SortedScan(rows, agent, wanted);
      BatchIds(agent, wanted, batch);
      MarkBatch(agent, batch);
    }

    lemma BatchIds(agent: string, wanted: string -> bool, batch: seq<Message>)
      requires Valid() && batch <= Sort(Before, Undelivered(rows, agent, wanted))
      ensures forall m :: m in batch ==> 1 <= m.id <= |rows|
    {
      var pending := Undelivered(rows, agent, wanted);
      UndeliveredMembers(rows, agent, wanted);
      MultisetMembers(Sort(Before, pending), pending);
      forall m | m in batch ensures 1 <= m.id <= |rows| {
        assert m in pending;
      }
    }

    /** Remove the named subscriptions, then discard in one pass what any of them had queued. */
    method Unsubscribe(agent: string, patterns: seq<string>) returns (removed: seq<string>, pendingCleared: nat)
      requires Valid()
      modifies this`rows, this`subscriptions
      ensures Valid()
      ensures rows == Step(glob, Sqlite, old(Contents()), Op.Unsubscribe(agent, patterns)).0.log
      ensures var after := Step(glob, Sqlite, old(Contents()), Op.Unsubscribe(agent, patterns)).0;
        forall a :: PatternsIn(subscriptions, a) == PatternsFor(after.subscriptions, a)
      ensures removed == RemovedPatterns(old(Contents()).subscriptions, agent, patterns)
      ensures pendingCleared == |Discarded(glob, old(Contents()), agent, patterns)|
    {
      hide Sort, Undelivered, Dense, ClearRows, MarkDelivered, Filter, PatternsIn;
      ghost var before := Contents();
      var existing := PatternsIn(subscriptions, agent);
      MapAgreesWithTable(subscriptions, agent);
      removed := Filter(Named(patterns), existing);
      pendingCleared := 0;
      subscriptions := Filter(NotDeleted(agent, removed), subscriptions);
      forall a ensures PatternsIn(subscriptions, a) ==
        if a == agent then KeptPatterns(before.subscriptions, agent, patterns) else PatternsFor(before.subscriptions, a)
      {
        PatternsAfterDelete(old(subscriptions), agent, patterns, a);
      }
      var wanted := Wanted(glob, removed, None);
      if removed != [] {
        rows, pendingCleared := ClearAll(rows, agent, wanted);
        ClearRowsMarks(before.log, agent, wanted);
      } else {
        NothingWanted(rows, agent, wanted);
        NobodyMarked(rows, agent);
      }
      MarkKeepsDense(before, Contents(), agent, Ids(Undelivered(before.log, agent, wanted)));
    }

    /** One pass over the table. */
    static method ClearAll(rows: Log, agent: string, wanted: string -> bool) returns (cleared: Log, count: nat)
      ensures cleared == ClearRows(rows, agent, wanted) && count == |Undelivered(rows, agent, wanted)|
    {
      cleared, count := [], 0;
      for i := 0 to |rows|
        invariant |cleared| == i
        invariant forall j :: 0 <= j < i ==> cleared[j] == ClearRows(rows, agent, wanted)[j]
        invariant count == |Undelivered(rows[..i], agent, wanted)|
      {
        UndeliveredNext(rows, agent, wanted, i);
        if agent in rows[i].deliveredTo {
          DeliverAgain(rows[i], agent);
          cleared := cleared + [rows[i]];
        } else if wanted(rows[i].msg.channel) {
          cleared := cleared + [Row(rows[i].msg, rows[i].deliveredTo + {agent})];
          count := count + 1;
        } else {
          cleared := cleared + [rows[i]];
        }
      }
      assert rows[..|rows|] == rows;
    }

    /** One poll: fetch what is new, then advance the mark message by message as they are yielded. */
    method WatchPoll(agent: string, lastSeenId: int) returns (batch: seq<Message>, mark: int)
      requires Valid()
      ensures batch == PollBatch(rows, agent, Wanted(glob, PatternsIn(subscriptions, agent), None), lastSeenId)
      ensures mark == NextMark(batch, lastSeenId)
    {
      hide Sort, Dense, Undelivered, Filter, PatternsIn;
      var patterns := PatternsIn(subscriptions, agent);
      var wanted := Wanted(glob, patterns, None);
      mark := lastSeenId;
      if patterns == [] {
        NothingWanted(rows, agent, wanted);
        EmptyPoll(lastSeenId);
        return [], mark;
      }
      var fetched := Sort(RowBefore, Filter(RowBeyond(lastSeenId), rows));
      ScanBeyond(rows, agent, wanted, lastSeenId);
      SortedScan(Filter(RowBeyond(lastSeenId), rows), agent, wanted);
      batch := Select(fetched, agent, wanted, |fetched| + 1);
      UndeliveredNoLonger(fetched, agent, wanted);
      for i := 0 to |batch|
        invariant mark == NextMark(batch[..i], lastSeenId)
      {
        NextMarkStep(batch, lastSeenId, i);
        if batch[i].id > mark {
          mark := batch[i].id;
        }
      }
      assert batch[..|batch|] == batch;
    }
  }

  lemma {:induction false} UndeliveredNoLonger(log: Log, agent: string, wanted: string -> bool)
    ensures |Undelivered(log, agent, wanted)| <= |log|
  {
    if log != [] {
      UndeliveredNoLonger(log[..|log| - 1], agent, wanted);
    }
  }

  lemma {:induction false} NothingWanted(log: Log, agent: string, wanted: string -> bool)
    requires forall c :: !wanted(c)
    ensures Undelivered(log, agent, wanted) == []
  {
    if log != [] {
      NothingWanted(log[..|log| - 1], agent, wanted);
    }
  }

  lemma PatternsAfterDelete(table: SubscriptionTable, agent: string, patterns: seq<string>, other: string)
    ensures PatternsIn(Filter(NotDeleted(agent, Filter(Named(patterns), PatternsIn(table, agent))), table), other) ==
      if other == agent then KeptPatterns(SubscriptionMap(table), agent, patterns) else PatternsFor(SubscriptionMap(table), other)
  {
    hide PatternsIn, PatternsFor;
    var removed := Filter(Named(patterns), PatternsIn(table, agent));
    DeletedPatterns(table, agent, removed, other);
    MapAgreesWithTable(table, other);
    FilterCongruence(NotNamed(removed), NotNamed(patterns), PatternsIn(table, agent));
  }

  function InsertOrIgnore(table: SubscriptionTable, agent: string, pattern: string): SubscriptionTable {
    if (agent, pattern) in table then table else table + [(agent, pattern)]
  }

  lemma {:induction false} PatternRows(table: SubscriptionTable, agent: string, pattern: string)
    ensures pattern in PatternsIn(table, agent) <==> (agent, pattern) in table
  {
    if table != [] {
      var init, last := table[..|table| - 1], table[|table| - 1];
      PatternRows(init, agent, pattern);
      assert table == init + [last];
    }
  }

  lemma PatternsAfterInsert(table: SubscriptionTable, agent: string, pattern: string, other: string)
    ensures PatternsIn(InsertOrIgnore(table, agent, pattern), other) ==
      if other == agent then AddPattern(PatternsIn(table, agent), pattern) else PatternsIn(table, other)
  {
    hide PatternsIn;
    PatternRows(table, agent, pattern);
    PatternsAppend(table, (agent, pattern), other);
  }

  lemma NobodyMarked(log: Log, agent: string)
    ensures MarkDelivered(log, agent, Ids([])) == log
  {
  }

  lemma EmptyBatch(log: Log, agent: string, max: int)
    ensures SqliteBatch([], max) == [] && MarkDelivered(log, agent, Ids([])) == log
  {
  }

  lemma EmptyPoll(mark: int)
    ensures Sort(Before, Above([], mark)) == []
  {
  }

  lemma AppendAscending(s: State, channel: string, sender: string, body: string, correlationId: Option<string>,
                        sentAt: real, replyTo: Option<string>)
    requires Dense(s) && IdsAscending(s.log)
    ensures IdsAscending(Append(s, channel, sender, body, correlationId, sentAt, replyTo).log)
  {
  }
}
