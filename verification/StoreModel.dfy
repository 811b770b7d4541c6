/** The message log shared by the backing stores: what is pending for an agent, how a batch is chosen,
    marked and drained, and how a channel is replayed. Glob matching is a parameter. */
module StoreModel {
  import opened Options
  import opened Sorting

  /** `fnmatchcase(channel, pattern)`. */
  type Glob = (string, string) -> bool

  datatype Message = Message(id: int, channel: string, sender: string, body: string,
                             correlationId: Option<string>, sentAt: real, seqNo: int, replyTo: Option<string>)

  /** A stored message with the agents it has been delivered to. */
  datatype Row = Row(msg: Message, deliveredTo: set<string>)

  type Log = seq<Row>

  ghost predicate IdsAscending(log: Log) {
    forall i, j :: 0 <= i < j < |log| ==> log[i].msg.id < log[j].msg.id
  }

  ghost predicate Ascending(ms: seq<Message>) {
    forall i, j :: 0 <= i < j < |ms| ==> ms[i].id < ms[j].id
  }

  function Ids(ms: seq<Message>): (r: set<int>)
    ensures forall m :: m in ms ==> m.id in r
  {
    set m | m in ms :: m.id
  }

  // ---------------------------------------------------------------- which messages an agent wants

  /** `any(fnmatch(channel, p) for p in patterns)`. */
  predicate MatchesAny(glob: Glob, patterns: seq<string>, channel: string) {
    exists p :: p in patterns && glob(channel, p)
  }

  /** The channel test of `recv`: the explicit channels if given, the subscriptions otherwise. */
  function Wanted(glob: Glob, patterns: seq<string>, channels: Option<seq<string>>): string -> bool {
    (channel: string) =>
      match channels
      case Some(names) => channel in names
      case None => MatchesAny(glob, patterns, channel)
  }

  predicate Pending(row: Row, agent: string, wanted: string -> bool) {
    agent !in row.deliveredTo && wanted(row.msg.channel)
  }

  /** The messages still owed to `agent` on the channels it wants, in log order. */
  function Undelivered(log: Log, agent: string, wanted: string -> bool): seq<Message> {
    if log == [] then []
    else
      var last := log[|log| - 1];
      Undelivered(log[..|log| - 1], agent, wanted) + if Pending(last, agent, wanted) then [last.msg] else []
  }

  function Deliver(row: Row, agent: string): Row {
    Row(row.msg, row.deliveredTo + {agent})
  }

  lemma DeliverAgain(row: Row, agent: string)
    requires agent in row.deliveredTo
    ensures Deliver(row, agent) == row
  {
    assert row.deliveredTo + {agent} == row.deliveredTo;
  }

  function MarkDelivered(log: Log, agent: string, ids: set<int>): (r: Log)
    ensures |r| == |log|
    ensures forall i :: 0 <= i < |log| ==> r[i] == if log[i].msg.id in ids then Deliver(log[i], agent) else log[i]
  {
    seq(|log|, i requires 0 <= i < |log| => if log[i].msg.id in ids then Deliver(log[i], agent) else log[i])
  }

  lemma {:induction false} UndeliveredMembers(log: Log, agent: string, wanted: string -> bool)
    ensures forall m :: m in Undelivered(log, agent, wanted) <==>
      exists i :: 0 <= i < |log| && log[i].msg == m && Pending(log[i], agent, wanted)
  {
    if log != [] {
      var n := |log| - 1;
      UndeliveredMembers(log[..n], agent, wanted);
      forall m ensures m in Undelivered(log, agent, wanted) <==>
        exists i :: 0 <= i < |log| && log[i].msg == m && Pending(log[i], agent, wanted)
      {
        if i :| 0 <= i < |log| && log[i].msg == m && Pending(log[i], agent, wanted) {
          if i < n { assert log[..n][i] == log[i]; }
        }
      }
    }
  }

  lemma {:induction false} UndeliveredAscending(log: Log, agent: string, wanted: string -> bool)
    requires IdsAscending(log)
    ensures Ascending(Undelivered(log, agent, wanted))
  {
    if log != [] {
      var n := |log| - 1;
      UndeliveredAscending(log[..n], agent, wanted);
      UndeliveredMembers(log[..n], agent, wanted);
      var before := Undelivered(log[..n], agent, wanted);
      forall i | 0 <= i < |before| ensures before[i].id < log[n].msg.id {
        assert before[i] in before;
      }
    }
  }

  lemma {:induction false} UndeliveredPrefix(log: Log, agent: string, wanted: string -> bool, k: nat)
    requires k <= |log|
    ensures Undelivered(log[..k], agent, wanted) <= Undelivered(log, agent, wanted)
  {
    if k == |log| {
      assert log[..k] == log;
    } else {
      UndeliveredPrefix(log[..|log| - 1], agent, wanted, k);
      assert log[..|log| - 1][..k] == log[..k];
    }
  }

  lemma UndeliveredNext(log: Log, agent: string, wanted: string -> bool, k: nat)
    requires k < |log|
    ensures Undelivered(log[..k + 1], agent, wanted)
         == if Pending(log[k], agent, wanted) then Undelivered(log[..k], agent, wanted) + [log[k].msg]
            else Undelivered(log[..k], agent, wanted)
  {
    assert log[..k + 1][..k] == log[..k];
  }

  /** Marking a batch removes exactly that batch from what the agent is owed. */
  lemma {:induction false} UndeliveredAfterMark(log: Log, agent: string, wanted: string -> bool, ids: set<int>)
    ensures Undelivered(MarkDelivered(log, agent, ids), agent, wanted)
         == Filter(Outside(ids), Undelivered(log, agent, wanted))
  {
    var keep := Outside(ids);
    if log != [] {
      var n := |log| - 1;
      UndeliveredAfterMark(log[..n], agent, wanted, ids);
      assert MarkDelivered(log, agent, ids)[..n] == MarkDelivered(log[..n], agent, ids);
      FilterConcat(keep, Undelivered(log[..n], agent, wanted), if Pending(log[n], agent, wanted) then [log[n].msg] else []);
    }
  }

  /** Marking for one agent leaves every other agent's pending messages alone. */
  lemma {:induction false} UndeliveredOfOthers(log: Log, agent: string, other: string, wanted: string -> bool, ids: set<int>)
    requires agent != other
    ensures Undelivered(MarkDelivered(log, agent, ids), other, wanted) == Undelivered(log, other, wanted)
  {
    if log != [] {
      var n := |log| - 1;
      UndeliveredOfOthers(log[..n], agent, other, wanted, ids);
      assert MarkDelivered(log, agent, ids)[..n] == MarkDelivered(log[..n], agent, ids);
    }
  }

  // ---------------------------------------------------------------- one recv

  /** The sort key of a batch: channel, then send time, then id. */
  predicate Before(m: Message, n: Message) {
    if m.channel != n.channel then StringLe(m.channel, n.channel)
    else if m.sentAt != n.sentAt then m.sentAt < n.sentAt
    else m.id <= n.id
  }

  lemma BeforeOrder()
    ensures TotalPreorder(Before)
  {
    StringOrder();
    forall m, n ensures Before(m, n) || Before(n, m) { }
    forall x, y, z | Before(x, y) && Before(y, z) ensures Before(x, z) {
      StringLeTotal(x.channel, y.channel);
      StringLeTotal(y.channel, z.channel);
    }
  }

  lemma AscendingNoTies(ms: seq<Message>)
    requires Ascending(ms)
    ensures NoTies(Before, ms) && Distinct(ms)
  {
    forall x, y | x in ms && y in ms && Before(x, y) && Before(y, x) ensures x == y {
      StringLeTotal(x.channel, y.channel);
      var i :| 0 <= i < |ms| && ms[i] == x;
      var j :| 0 <= j < |ms| && ms[j] == y;
    }
  }

  /** `s[:k]` for k >= 0; nothing for a negative k. */
  function Take<T>(s: seq<T>, k: int): seq<T> {
    if k <= 0 then [] else if k >= |s| then s else s[..k]
  }

  /** MemoryStore: the first `max` pending messages in log order, then sorted. */
  function MemoryBatch(pending: seq<Message>, max: int): seq<Message> {
    Sort(Before, Take(pending, max))
  }

  /** SqliteStore: sorted first, then cut; the cut is tested after a row is taken, so at least one is. */
  function SqliteBatch(pending: seq<Message>, max: int): seq<Message> {
    Take(Sort(Before, pending), if max < 1 then 1 else max)
  }

  /** The two selection rules. */
  datatype Store = Memory | Sqlite

  function Batch(store: Store, pending: seq<Message>, max: int): seq<Message> {
    match store
    case Memory => MemoryBatch(pending, max)
    case Sqlite => SqliteBatch(pending, max)
  }

  /** How many messages a batch holds if enough are pending. */
  function Limit(store: Store, max: int): nat {
    match store
    case Memory => if max < 0 then 0 else max
    case Sqlite => if max < 1 then 1 else max
  }

  function Outside(ids: set<int>): Message -> bool {
    (m: Message) => m.id !in ids
  }

  function Remaining(pending: seq<Message>, batch: seq<Message>): seq<Message> {
    Filter(Outside(Ids(batch)), pending)
  }

  lemma TakeProperties(s: seq<Message>, k: int)
    ensures multiset(Take(s, k)) <= multiset(s)
    ensures Distinct(s) ==> Distinct(Take(s, k))
    ensures SortedBy(Before, s) ==> SortedBy(Before, Take(s, k))
  {
    var cut := Take(s, k);
    assert s == cut + s[|cut|..];
    assert multiset(s) == multiset(cut) + multiset(s[|cut|..]);
  }

  /** Either way a batch is part of what is pending, in sorted order, and as large as the limit allows. */
  lemma BatchProperties(store: Store, pending: seq<Message>, max: int)
    requires Ascending(pending)
    ensures var batch := Batch(store, pending, max);
      && multiset(batch) <= multiset(pending) && Distinct(batch) && SortedBy(Before, batch)
      && |batch| == if Limit(store, max) < |pending| then Limit(store, max) else |pending|
  {
    assert TotalPreorder(Before) by { BeforeOrder(); }
    assert Distinct(pending) by { AscendingNoTies(pending); }
    match store
    case Memory =>
      TakeProperties(pending, max);
      SortSorts(Before, Take(pending, max));
      PermutationDistinct(Take(pending, max), Batch(store, pending, max));
    case Sqlite =>
      SortSorts(Before, pending);
      PermutationDistinct(pending, Sort(Before, pending));
      TakeProperties(Sort(Before, pending), if max < 1 then 1 else max);
  }

  /** The stores return equally many messages for every non-empty backlog exactly when the limit is at
      least one: below that the memory store returns none and the SQLite store one. */
  lemma SameSizeIffPositiveLimit(max: int)
    ensures max >= 1 <==> forall pending :: Ascending(pending) && pending != [] ==>
      |MemoryBatch(pending, max)| == |SqliteBatch(pending, max)|
  {
    if max >= 1 {
      forall pending | Ascending(pending) && pending != []
        ensures |MemoryBatch(pending, max)| == |SqliteBatch(pending, max)|
      {
        BatchProperties(Memory, pending, max);
        BatchProperties(Sqlite, pending, max);
      }
    } else {
      var one := [Message(1, "a", "s", "", None, 0.0, 1, None)];
      assert Ascending(one) && |MemoryBatch(one, max)| == 0 && |SqliteBatch(one, max)| == 1;
    }
  }

  lemma RemainingMultiset(pending: seq<Message>, batch: seq<Message>)
    requires Ascending(pending) && Distinct(batch) && multiset(batch) <= multiset(pending)
    ensures multiset(Remaining(pending, batch)) + multiset(batch) == multiset(pending)
    ensures |Remaining(pending, batch)| + |batch| == |pending|
    ensures Ascending(Remaining(pending, batch))
  {
    AscendingNoTies(pending);
    var keep := Outside(Ids(batch));
    forall x ensures multiset(Remaining(pending, batch))[x] + multiset(batch)[x] == multiset(pending)[x] {
      FilterMultiplicity(keep, pending, x);
      DistinctMultiplicity(pending, x);
      DistinctMultiplicity(batch, x);
      if x in pending && x.id in Ids(batch) {
        var m :| m in batch && m.id == x.id;
        assert m in multiset(batch) && m in multiset(pending) && m in pending;
        var i :| 0 <= i < |pending| && pending[i] == x;
        var j :| 0 <= j < |pending| && pending[j] == m;
        assert i == j;
      }
      if x in batch {
        assert x in multiset(batch) && x in multiset(pending);
      }
    }
    assert multiset(Remaining(pending, batch)) + multiset(batch) == multiset(pending);
    assert |multiset(Remaining(pending, batch)) + multiset(batch)| == |multiset(pending)|;
    FilterAscending(keep, pending);
  }

  /** A batch splits the backlog in two. */
  lemma BatchSplits(store: Store, pending: seq<Message>, max: int)
    requires Ascending(pending)
    ensures var batch := Batch(store, pending, max);
      && Ascending(Remaining(pending, batch))
      && multiset(Remaining(pending, batch)) + multiset(batch) == multiset(pending)
      && |Remaining(pending, batch)| + |batch| == |pending|
      && |batch| == if Limit(store, max) < |pending| then Limit(store, max) else |pending|
  {
    BatchProperties(store, pending, max);
    RemainingMultiset(pending, Batch(store, pending, max));
  }

  lemma {:induction false} FilterAscending(p: Message -> bool, ms: seq<Message>)
    requires Ascending(ms)
    ensures Ascending(Filter(p, ms))
  {
    if ms != [] {
      FilterAscending(p, ms[1..]);
      forall j | 0 <= j < |Filter(p, ms[1..])| ensures ms[0].id < Filter(p, ms[1..])[j].id {
        assert Filter(p, ms[1..])[j] in ms[1..];
      }
    }
  }
}
