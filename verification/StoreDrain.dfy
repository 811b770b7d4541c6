/** Draining a backlog by repeated `recv`, in either backing store. */
module StoreDrain {
  import opened Options
  import opened Sorting
  import opened StoreModel

  /** One `recv`: the batch handed out and the log with the batch marked. */
  function Recv(store: Store, log: Log, agent: string, wanted: string -> bool, max: int): (Log, seq<Message>) {
    var batch := Batch(store, Undelivered(log, agent, wanted), max);
    (MarkDelivered(log, agent, Ids(batch)), batch)
  }

  /** After a `recv` the agent is owed what it was owed before, less the batch. */
  lemma RecvRemaining(store: Store, log: Log, agent: string, wanted: string -> bool, max: int)
    requires IdsAscending(log)
    ensures var (log', batch) := Recv(store, log, agent, wanted, max);
      && IdsAscending(log')
      && Undelivered(log', agent, wanted) == Remaining(Undelivered(log, agent, wanted), batch)
      && |Undelivered(log', agent, wanted)| + |batch| == |Undelivered(log, agent, wanted)|
  {
    var pending := Undelivered(log, agent, wanted);
    var batch := Batch(store, pending, max);
    UndeliveredAscending(log, agent, wanted);
    UndeliveredAfterMark(log, agent, wanted, Ids(batch));
    BatchSplits(store, pending, max);
  }

  /** The batches of repeated `recv` calls with nothing sent in between, the final empty one included. */
  function Drain(store: Store, log: Log, agent: string, wanted: string -> bool, max: int): seq<seq<Message>>
    requires IdsAscending(log)
    decreases |Undelivered(log, agent, wanted)|
  {
    RecvRemaining(store, log, agent, wanted, max);
    var (log', batch) := Recv(store, log, agent, wanted, max);
    [batch] + if batch == [] then [] else Drain(store, log', agent, wanted, max)
  }

  /** The same on the pending messages alone. */
  ghost function DrainPending(store: Store, pending: seq<Message>, max: int): seq<seq<Message>>
    requires Ascending(pending)
    decreases |pending|
  {
    var batch := Batch(store, pending, max);
    BatchSplits(store, pending, max);
    [batch] + if batch == [] then [] else DrainPending(store, Remaining(pending, batch), max)
  }

  lemma {:induction false} DrainIsDrainPending(store: Store, log: Log, agent: string, wanted: string -> bool, max: int)
    requires IdsAscending(log)
    ensures Ascending(Undelivered(log, agent, wanted))
    ensures Drain(store, log, agent, wanted, max) == DrainPending(store, Undelivered(log, agent, wanted), max)
    decreases |Undelivered(log, agent, wanted)|
  {
    UndeliveredAscending(log, agent, wanted);
    RecvRemaining(store, log, agent, wanted, max);
    var (log', batch) := Recv(store, log, agent, wanted, max);
    if batch != [] {
      DrainIsDrainPending(store, log', agent, wanted, max);
    }
  }

  function Concat(batches: seq<seq<Message>>): seq<Message> {
    if batches == [] then [] else batches[0] + Concat(batches[1..])
  }

  /** The first call of a drain, and the drain of what it leaves. */
  lemma DrainStep(store: Store, pending: seq<Message>, max: int)
    requires Ascending(pending) && Limit(store, max) >= 1 && pending != []
    ensures var batch := Batch(store, pending, max);
      var rest := Remaining(pending, batch);
      && Ascending(rest) && |rest| < |pending|
      && DrainPending(store, pending, max) == [batch] + DrainPending(store, rest, max)
      && Concat(DrainPending(store, pending, max)) == batch + Concat(DrainPending(store, rest, max))
  {
    BatchSplits(store, pending, max);
    var batch := Batch(store, pending, max);
    var more := DrainPending(store, Remaining(pending, batch), max);
    assert batch != [];
    assert ([batch] + more)[1..] == more && ([batch] + more)[0] == batch;
  }

  lemma DrainNothing(store: Store, max: int)
    ensures DrainPending(store, [], max) == [[]] && Concat([[]]) == []
  {
    BatchSplits(store, [], max);
    assert Batch(store, [], max) == [];
    var nothing: seq<seq<Message>> := [[]];
    assert nothing[1..] == [];
  }

  ghost predicate SameSizes(a: seq<seq<Message>>, b: seq<seq<Message>>) {
    |a| == |b| && forall i :: 0 <= i < |a| ==> |a[i]| == |b[i]|
  }

  /** Both stores need the same number of calls, and each call returns equally many messages. */
  lemma {:induction false} SameCalls(pending: seq<Message>, pending': seq<Message>, max: int)
    requires Ascending(pending) && Ascending(pending') && |pending| == |pending'| && max >= 1
    ensures SameSizes(DrainPending(Memory, pending, max), DrainPending(Sqlite, pending', max))
    decreases |pending|
  {
    hide DrainPending, Batch, Remaining;
    if pending == [] {
      DrainNothing(Memory, max);
      DrainNothing(Sqlite, max);
    } else {
      hide SameSizes;
      var b, b' := Batch(Memory, pending, max), Batch(Sqlite, pending', max);
      var rest, rest' := Remaining(pending, b), Remaining(pending', b');
      DrainStep(Memory, pending, max);
      DrainStep(Sqlite, pending', max);
      assert |b| == |b'| && |rest| == |rest'| by {
        BatchSplits(Memory, pending, max);
        BatchSplits(Sqlite, pending', max);
      }
      SameCalls(rest, rest', max);
      SameSizesPrepend(b, DrainPending(Memory, rest, max), b', DrainPending(Sqlite, rest', max));
    }
  }

  lemma SameSizesPrepend(b: seq<Message>, rest: seq<seq<Message>>, b': seq<Message>, rest': seq<seq<Message>>)
    requires |b| == |b'| && SameSizes(rest, rest')
    ensures SameSizes([b] + rest, [b'] + rest')
  {
  }

  /** Every pending message is returned, once. */
  lemma {:induction false} DrainReturnsAll(store: Store, pending: seq<Message>, max: int)
    requires Ascending(pending) && Limit(store, max) >= 1
    ensures multiset(Concat(DrainPending(store, pending, max))) == multiset(pending)
    decreases |pending|
  {
    if pending == [] {
      DrainNothing(store, max);
    } else {
      DrainStep(store, pending, max);
      DrainReturnsAll(store, Remaining(pending, Batch(store, pending, max)), max);
      BatchSplits(store, pending, max);
    }
  }

  // ---------------------------------------------------------------- order within a channel

  function Of(channel: string): Message -> bool {
    (m: Message) => m.channel == channel
  }

  function OnChannel(ms: seq<Message>, channel: string): seq<Message> {
    Filter(Of(channel), ms)
  }

  /** The clock never went backwards between two messages of one channel. */
  ghost predicate MonotoneTimes(ms: seq<Message>) {
    forall i, j :: 0 <= i < j < |ms| && ms[i].channel == ms[j].channel ==> ms[i].sentAt <= ms[j].sentAt
  }

  lemma {:induction false} FilterSorted(p: Message -> bool, ms: seq<Message>)
    requires SortedBy(Before, ms)
    ensures SortedBy(Before, Filter(p, ms))
  {
    if ms != [] {
      FilterSorted(p, ms[1..]);
      forall j | 0 <= j < |Filter(p, ms[1..])| ensures Before(ms[0], Filter(p, ms[1..])[j]) {
        assert Filter(p, ms[1..])[j] in ms[1..];
      }
    }
  }

  lemma {:induction false} MonotoneChannelSorted(ms: seq<Message>, channel: string)
    requires Ascending(ms) && MonotoneTimes(ms)
    ensures SortedBy(Before, OnChannel(ms, channel))
  {
    if ms != [] {
      MonotoneChannelSorted(ms[1..], channel);
      var tail := OnChannel(ms[1..], channel);
      if ms[0].channel == channel {
        forall j | 0 <= j < |tail| ensures Before(ms[0], tail[j]) {
          assert tail[j] in tail;
          var k :| 0 <= k < |ms[1..]| && ms[1..][k] == tail[j];
          assert ms[k + 1] == tail[j];
        }
      }
    }
  }

  /** With a monotone clock sorting does not reorder a channel. */
  lemma SortKeepsChannel(ms: seq<Message>, channel: string)
    requires Ascending(ms) && MonotoneTimes(ms)
    ensures OnChannel(Sort(Before, ms), channel) == OnChannel(ms, channel)
  {
    BeforeOrder();
    AscendingNoTies(ms);
    SortSorts(Before, ms);
    FilterSorted(Of(channel), Sort(Before, ms));
    MonotoneChannelSorted(ms, channel);
    SameBagFiltered(Sort(Before, ms), ms, channel);
    MultisetMembers(OnChannel(Sort(Before, ms), channel), OnChannel(ms, channel));
    SortedUnique(Before, OnChannel(Sort(Before, ms), channel), OnChannel(ms, channel));
  }

  lemma SameBagFiltered(s: seq<Message>, t: seq<Message>, channel: string)
    requires multiset(s) == multiset(t)
    ensures multiset(OnChannel(s, channel)) == multiset(OnChannel(t, channel))
  {
    forall x ensures multiset(OnChannel(s, channel))[x] == multiset(OnChannel(t, channel))[x] {
      FilterMultiplicity(Of(channel), s, x);
      FilterMultiplicity(Of(channel), t, x);
    }
  }

  lemma IdOutsidePrefix(ms: seq<Message>, k: nat, m: Message)
    requires Ascending(ms) && k <= |ms| && m in ms[k..]
    ensures forall n :: n in ms[..k] ==> n.id < m.id
  {
    var i :| 0 <= i < |ms[k..]| && ms[k..][i] == m;
    assert ms[k + i] == m;
  }

  /** The memory store works through the backlog from the front. */
  lemma MemoryRemaining(pending: seq<Message>, max: int)
    requires Ascending(pending) && max >= 1
    ensures Remaining(pending, MemoryBatch(pending, max)) == pending[|Take(pending, max)|..]
  {
    var cut, batch := Take(pending, max), MemoryBatch(pending, max);
    var rest := pending[|cut|..];
    var keep := Outside(Ids(batch));
    assert pending == cut + rest;
    MultisetMembers(cut, batch);
    FilterConcat(keep, cut, rest);
    FilterNone(keep, cut);
    forall m | m in rest ensures keep(m) {
      IdOutsidePrefix(pending, |cut|, m);
      assert forall n :: n in batch ==> n in cut;
    }
    FilterEverything(keep, rest);
  }

  lemma {:induction false} FilterNone(p: Message -> bool, ms: seq<Message>)
    requires forall m :: m in ms ==> !p(m)
    ensures Filter(p, ms) == []
  {
    if ms != [] { FilterNone(p, ms[1..]); }
  }

  lemma {:induction false} FilterEverything(p: Message -> bool, ms: seq<Message>)
    requires forall m :: m in ms ==> p(m)
    ensures Filter(p, ms) == ms
  {
    if ms != [] { FilterEverything(p, ms[1..]); }
  }

  lemma {:induction false} MemoryChannelOrder(pending: seq<Message>, max: int, channel: string)
    requires Ascending(pending) && MonotoneTimes(pending) && max >= 1
    ensures OnChannel(Concat(DrainPending(Memory, pending, max)), channel) == OnChannel(pending, channel)
    decreases |pending|
  {
    if pending == [] {
      DrainNothing(Memory, max);
    } else {
      var cut, batch := Take(pending, max), MemoryBatch(pending, max);
      var rest := pending[|cut|..];
      assert cut == pending[..|cut|];
      Slices(pending, |cut|);
      DrainStep(Memory, pending, max);
      MemoryRemaining(pending, max);
      MemoryChannelOrder(rest, max, channel);
      SortKeepsChannel(cut, channel);
      OnChannelConcat(batch, Concat(DrainPending(Memory, rest, max)), channel);
      OnChannelConcat(cut, rest, channel);
    }
  }

  lemma OnChannelConcat(s: seq<Message>, t: seq<Message>, channel: string)
    ensures OnChannel(s + t, channel) == OnChannel(s, channel) + OnChannel(t, channel)
  {
    FilterConcat(Of(channel), s, t);
  }

  lemma Slices(ms: seq<Message>, k: nat)
    requires Ascending(ms) && MonotoneTimes(ms) && k <= |ms|
    ensures Ascending(ms[..k]) && MonotoneTimes(ms[..k]) && Ascending(ms[k..]) && MonotoneTimes(ms[k..])
    ensures ms == ms[..k] + ms[k..]
  {
  }

  lemma SortedTail(s: seq<Message>, k: nat)
    requires SortedBy(Before, s) && NoTies(Before, s) && k <= |s|
    ensures SortedBy(Before, s[k..]) && NoTies(Before, s[k..])
  {
    assert forall m :: m in s[k..] ==> m in s;
  }

  /** The sorted backlog is sorted and without ties. */
  lemma BacklogSorted(pending: seq<Message>)
    requires Ascending(pending)
    ensures SortedBy(Before, Sort(Before, pending)) && NoTies(Before, Sort(Before, pending))
  {
    assert SortedBy(Before, Sort(Before, pending)) by {
      BeforeOrder();
      SortSorts(Before, pending);
    }
    AscendingNoTies(pending);
    MultisetMembers(Sort(Before, pending), pending);
  }

  lemma RestOfBag(s: seq<Message>, k: nat, rest: multiset<Message>)
    requires k <= |s| && rest + multiset(s[..k]) == multiset(s)
    ensures rest == multiset(s[k..])
  {
    assert s == s[..k] + s[k..];
    assert multiset(s) == multiset(s[..k]) + multiset(s[k..]);
    assert rest == multiset(s) - multiset(s[..k]);
  }

  /** What SQLite leaves is the rest of its sorted backlog. */
  lemma SqliteTail(pending: seq<Message>, max: int)
    requires Ascending(pending)
    ensures var batch := SqliteBatch(pending, max);
      && |batch| <= |pending|
      && Sort(Before, Remaining(pending, batch)) == Sort(Before, pending)[|batch|..]
      && batch == Sort(Before, pending)[..|batch|]
  {
    var sorted, batch := Sort(Before, pending), SqliteBatch(pending, max);
    var remaining, tail := Remaining(pending, batch), sorted[|batch|..];
    assert batch == sorted[..|batch|];
    assert batch == Batch(Sqlite, pending, max);
    BatchSplits(Sqlite, pending, max);
    RestOfBag(sorted, |batch|, multiset(remaining));
    assert SortedBy(Before, tail) && NoTies(Before, tail) by {
      BacklogSorted(pending);
      SortedTail(sorted, |batch|);
    }
    assert SortedBy(Before, Sort(Before, remaining)) by {
      BacklogSorted(remaining);
    }
    SortedUnique(Before, tail, Sort(Before, remaining));
  }

  /** The SQLite store hands out the whole backlog in sorted order. */
  lemma {:induction false} SqliteDrainSorted(pending: seq<Message>, max: int)
    requires Ascending(pending)
    ensures Concat(DrainPending(Sqlite, pending, max)) == Sort(Before, pending)
    decreases |pending|
  {
    if pending == [] {
      DrainNothing(Sqlite, max);
    } else {
      DrainStep(Sqlite, pending, max);
      SqliteDrainSorted(Remaining(pending, SqliteBatch(pending, max)), max);
      SqliteTail(pending, max);
      Parts(Sort(Before, pending), |SqliteBatch(pending, max)|);
    }
  }

  /** Drained to empty from the same log, the two stores make the same number of calls with batches of
      the same sizes, and each returns every pending message exactly once. If send times do not decrease
      within a channel, each channel arrives in log order from both, whatever the batches were. */
  lemma DrainsAgree(log: Log, agent: string, wanted: string -> bool, max: int)
    requires IdsAscending(log) && max >= 1
    ensures var pending := Undelivered(log, agent, wanted);
      var m, s := Drain(Memory, log, agent, wanted, max), Drain(Sqlite, log, agent, wanted, max);
      && SameSizes(m, s)
      && Distinct(pending) && multiset(Concat(m)) == multiset(pending) == multiset(Concat(s))
      && (MonotoneTimes(pending) ==> forall c ::
            OnChannel(Concat(m), c) == OnChannel(pending, c) == OnChannel(Concat(s), c) && Ascending(OnChannel(pending, c)))
  {
    hide Drain, DrainPending, Sort, Filter, Undelivered;
    var pending := Undelivered(log, agent, wanted);
    DrainIsDrainPending(Memory, log, agent, wanted, max);
    DrainIsDrainPending(Sqlite, log, agent, wanted, max);
    AscendingNoTies(pending);
    SameCalls(pending, pending, max);
    DrainReturnsAll(Memory, pending, max);
    DrainReturnsAll(Sqlite, pending, max);
    if MonotoneTimes(pending) {
      SqliteDrainSorted(pending, max);
      forall c
        ensures OnChannel(Concat(Drain(Memory, log, agent, wanted, max)), c) == OnChannel(pending, c)
        ensures OnChannel(Concat(Drain(Sqlite, log, agent, wanted, max)), c) == OnChannel(pending, c)
        ensures Ascending(OnChannel(pending, c))
      {
        MemoryChannelOrder(pending, max, c);
        SortKeepsChannel(pending, c);
        FilterAscending(Of(c), pending);
      }
    }
  }

  /** Below a limit of one the memory store returns nothing, and SQLite still drains everything. */
  lemma DrainsBelowOne(log: Log, agent: string, wanted: string -> bool, max: int)
    requires IdsAscending(log) && max < 1
    ensures Drain(Memory, log, agent, wanted, max) == [[]]
    ensures multiset(Concat(Drain(Sqlite, log, agent, wanted, max))) == multiset(Undelivered(log, agent, wanted))
  {
    var pending := Undelivered(log, agent, wanted);
    DrainIsDrainPending(Memory, log, agent, wanted, max);
    DrainIsDrainPending(Sqlite, log, agent, wanted, max);
    BatchSplits(Memory, pending, max);
    assert Batch(Memory, pending, max) == [];
    DrainReturnsAll(Sqlite, pending, max);
  }

  lemma LineSorted(pending: seq<Message>, channel: string)
    requires Ascending(pending)
    ensures SortedBy(Before, OnChannel(Sort(Before, pending), channel))
  {
    BacklogSorted(pending);
    FilterSorted(Of(channel), Sort(Before, pending));
  }

  /** An earlier message with a later send time is handed out later. */
  lemma OutOfOrder(pending: seq<Message>, i: nat, j: nat)
    requires Ascending(pending)
    requires i < j < |pending| && pending[i].channel == pending[j].channel && pending[i].sentAt > pending[j].sentAt
    ensures !Ascending(OnChannel(Sort(Before, pending), pending[i].channel))
  {
    hide Sort, Filter;
    var sorted, c := Sort(Before, pending), pending[i].channel;
    var line := OnChannel(sorted, c);
    LineSorted(pending, c);
    assert pending[i] in line && pending[j] in line by {
      MultisetMembers(sorted, pending);
    }
    SortedNotAscending(line, pending[i], pending[j]);
  }

  lemma SortedNotAscending(line: seq<Message>, x: Message, y: Message)
    requires SortedBy(Before, line) && x in line && y in line && x.id < y.id && !Before(x, y)
    ensures !Ascending(line)
  {
    var a :| 0 <= a < |line| && line[a] == x;
    var b :| 0 <= b < |line| && line[b] == y;
    assert b < a;
  }

  /** Every channel is in id order. */
  ghost predicate AllAscending(ms: seq<Message>) {
    forall c :: Ascending(OnChannel(ms, c))
  }

  /** A sorted piece of the backlog is in id order in every channel exactly when its times are monotone. */
  lemma SortedAscendingIff(piece: seq<Message>)
    requires Ascending(piece)
    ensures AllAscending(Sort(Before, piece)) <==> MonotoneTimes(piece)
  {
    hide Sort, Filter;
    if MonotoneTimes(piece) {
      forall c ensures Ascending(OnChannel(Sort(Before, piece), c)) {
        SortKeepsChannel(piece, c);
        FilterAscending(Of(c), piece);
      }
    } else {
      var i, j :| 0 <= i < j < |piece| && piece[i].channel == piece[j].channel && piece[i].sentAt > piece[j].sentAt;
      OutOfOrder(piece, i, j);
    }
  }

  /** The SQLite drain delivers every channel in id order exactly when the send times are monotone. */
  lemma SqliteAscendingIffMonotone(pending: seq<Message>, max: int)
    requires Ascending(pending)
    ensures AllAscending(Concat(DrainPending(Sqlite, pending, max))) <==> MonotoneTimes(pending)
  {
    SqliteDrainSorted(pending, max);
    SortedAscendingIff(pending);
  }

  /** Cut into pieces of `max` messages, no piece holds two messages of one channel with decreasing times. */
  ghost predicate PiecesMonotone(pending: seq<Message>, max: int)
    requires max >= 1
    decreases |pending|
  {
    pending != [] ==> MonotoneTimes(Take(pending, max)) && PiecesMonotone(pending[|Take(pending, max)|..], max)
  }

  lemma AscendingConcat(s: seq<Message>, t: seq<Message>)
    requires forall x, y :: x in s && y in t ==> x.id < y.id
    ensures Ascending(s + t) <==> Ascending(s) && Ascending(t)
  {
    if Ascending(s + t) {
      assert forall i :: 0 <= i < |s| ==> (s + t)[i] == s[i];
      assert forall i :: 0 <= i < |t| ==> (s + t)[|s| + i] == t[i];
    } else {
      assert forall i :: 0 <= i < |s| ==> s[i] in s;
      assert forall i :: 0 <= i < |t| ==> t[i] in t;
    }
  }

  /** A first batch with smaller ids is in order in every channel by itself, and so is the rest. */
  lemma AllAscendingConcat(s: seq<Message>, t: seq<Message>)
    requires forall x, y :: x in s && y in t ==> x.id < y.id
    ensures AllAscending(s + t) <==> AllAscending(s) && AllAscending(t)
  {
    hide Filter, Ascending;
    forall c ensures Ascending(OnChannel(s + t, c)) <==> Ascending(OnChannel(s, c)) && Ascending(OnChannel(t, c)) {
      OnChannelConcat(s, t, c);
      AscendingConcat(OnChannel(s, c), OnChannel(t, c));
    }
  }

  /** Everything the memory store's first batch holds is older than everything after it. */
  lemma FirstBatchOlder(pending: seq<Message>, max: int)
    requires Ascending(pending) && max >= 1 && pending != []
    ensures var rest := pending[|Take(pending, max)|..];
      && Ascending(rest) && |rest| < |pending| && Ascending(Take(pending, max))
      && Concat(DrainPending(Memory, pending, max)) == MemoryBatch(pending, max) + Concat(DrainPending(Memory, rest, max))
      && forall x, y :: x in MemoryBatch(pending, max) && y in Concat(DrainPending(Memory, rest, max)) ==> x.id < y.id
  {
    hide DrainPending, Concat, Remaining, Sort;
    var cut := Take(pending, max);
    var rest := pending[|cut|..];
    var later := Concat(DrainPending(Memory, rest, max));
    assert cut == pending[..|cut|];
    DrainStep(Memory, pending, max);
    MemoryRemaining(pending, max);
    DrainReturnsAll(Memory, rest, max);
    SortMembers(cut);
    MultisetMembers(later, rest);
    forall x, y | x in MemoryBatch(pending, max) && y in later ensures x.id < y.id {
      IdOutsidePrefix(pending, |cut|, y);
    }
  }

  lemma SortMembers(ms: seq<Message>)
    ensures forall m :: m in Sort(Before, ms) <==> m in ms
  {
    MultisetMembers(Sort(Before, ms), ms);
  }

  lemma DrainedNothing(max: int)
    ensures AllAscending(Concat(DrainPending(Memory, [], max)))
  {
    DrainNothing(Memory, max);
  }

  /** With a limit of `max` the memory store delivers every channel in id order exactly when the times are
      monotone within each piece of `max` pending messages. */
  lemma {:induction false} MemoryAscendingIff(pending: seq<Message>, max: int)
    requires Ascending(pending) && max >= 1
    ensures AllAscending(Concat(DrainPending(Memory, pending, max))) <==> PiecesMonotone(pending, max)
    decreases |pending|
  {
    hide DrainPending, Concat, Sort, OnChannel, MonotoneTimes;
    if pending == [] {
      DrainedNothing(max);
    } else {
      var cut := Take(pending, max);
      var rest := pending[|cut|..];
      FirstBatchOlder(pending, max);
      AllAscendingConcat(MemoryBatch(pending, max), Concat(DrainPending(Memory, rest, max)));
      SortedAscendingIff(cut);
      MemoryAscendingIff(rest, max);
    }
  }

  lemma {:induction false} PiecesOfMonotone(pending: seq<Message>, max: int)
    requires max >= 1 && MonotoneTimes(pending)
    ensures PiecesMonotone(pending, max)
    decreases |pending|
  {
    if pending != [] {
      PiecesOfMonotone(pending[|Take(pending, max)|..], max);
    }
  }

  /** With every limit it does so exactly when the times are monotone throughout. */
  lemma MemoryAscendingIffMonotone(pending: seq<Message>)
    requires Ascending(pending)
    ensures (forall max :: max >= 1 ==> AllAscending(Concat(DrainPending(Memory, pending, max)))) <==> MonotoneTimes(pending)
  {
    hide DrainPending, Concat, AllAscending;
    if MonotoneTimes(pending) {
      forall max | max >= 1 ensures AllAscending(Concat(DrainPending(Memory, pending, max))) {
        PiecesOfMonotone(pending, max);
        MemoryAscendingIff(pending, max);
      }
    } else {
      assert Take(pending, |pending|) == pending && pending != [];
      MemoryAscendingIff(pending, |pending|);
      assert !AllAscending(Concat(DrainPending(Memory, pending, |pending|)));
    }
  }

  /** Single batches do differ: with a limit of one the stores start with different messages. */
  lemma BatchesDiffer() returns (pending: seq<Message>)
    ensures Ascending(pending)
    ensures MemoryBatch(pending, 1) != SqliteBatch(pending, 1)
  {
    var first := Message(1, "b", "s", "", None, 0.0, 1, None);
    var second := Message(2, "a", "s", "", None, 0.0, 1, None);
    pending := [first, second];
    assert pending[..1] == [first] && pending[..0] == [] && pending[..1][..0] == [];
    assert Sort(Before, [first]) == [first];
    assert !Before(first, second);
    assert Sort(Before, pending) == [second, first];
    assert MemoryBatch(pending, 1) == [first] && SqliteBatch(pending, 1) == [second];
  }
}
