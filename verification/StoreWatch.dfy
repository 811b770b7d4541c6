/** One `watch` invocation: a starting mark, then polls that each yield a batch and advance the mark. */
module StoreWatch {
  import opened Sorting
  import opened StoreModel
  import opened StoreDrain

  /** The highest id already delivered to the agent, 0 if none. */
  function StartMark(log: Log, agent: string): int {
    if log == [] then 0
    else
      var rest, last := StartMark(log[..|log| - 1], agent), log[|log| - 1];
      if agent in last.deliveredTo && last.msg.id > rest then last.msg.id else rest
  }

  /** What one poll yields. */
  function PollBatch(log: Log, agent: string, wanted: string -> bool, mark: int): seq<Message> {
    Sort(Before, Above(Undelivered(log, agent, wanted), mark))
  }

  function Beyond(mark: int): Message -> bool {
    (m: Message) => m.id > mark
  }

  function Above(ms: seq<Message>, mark: int): seq<Message> {
    Filter(Beyond(mark), ms)
  }

  /** The mark after yielding `batch`: its highest id, or the old mark when it is empty. */
  function NextMark(batch: seq<Message>, mark: int): (r: int)
    ensures r >= mark
    ensures forall m :: m in batch ==> m.id <= r
    ensures r == mark || exists m :: m in batch && m.id == r
  {
    if batch == [] then mark
    else
      var rest := NextMark(batch[..|batch| - 1], mark);
      var last := batch[|batch| - 1];
      assert batch == batch[..|batch| - 1] + [last];
      if last.id > rest then last.id else rest
  }

  lemma NextMarkStep(batch: seq<Message>, mark: int, k: nat)
    requires k < |batch|
    ensures NextMark(batch[..k + 1], mark) ==
      if batch[k].id > NextMark(batch[..k], mark) then batch[k].id else NextMark(batch[..k], mark)
  {
    assert batch[..k + 1][..k] == batch[..k];
  }

  /** The state of the store at one poll. */
  datatype Poll = Poll(log: Log, wanted: string -> bool)

  function Yields(polls: seq<Poll>, agent: string, mark: int): seq<Message> {
    if polls == [] then []
    else
      var batch := PollBatch(polls[0].log, agent, polls[0].wanted, mark);
      batch + Yields(polls[1..], agent, NextMark(batch, mark))
  }

  lemma PollMembers(log: Log, agent: string, wanted: string -> bool, mark: int)
    requires IdsAscending(log)
    ensures var batch := PollBatch(log, agent, wanted, mark);
      && Distinct(batch) && multiset(batch) == multiset(Above(Undelivered(log, agent, wanted), mark))
      && forall m :: m in batch ==> mark < m.id <= NextMark(batch, mark)
  {
    var batch, new_ := PollBatch(log, agent, wanted, mark), Above(Undelivered(log, agent, wanted), mark);
    UndeliveredAscending(log, agent, wanted);
    AscendingNoTies(Undelivered(log, agent, wanted));
    FilterDistinct(Beyond(mark), Undelivered(log, agent, wanted));
    PermutationDistinct(new_, batch);
    MultisetMembers(new_, batch);
  }

  /** Whatever happens to the store between polls, one watch never yields a message twice. */
  lemma {:induction false} WatchYieldsOnce(polls: seq<Poll>, agent: string, mark: int)
    requires forall i :: 0 <= i < |polls| ==> IdsAscending(polls[i].log)
    ensures Distinct(Yields(polls, agent, mark))
    ensures forall m :: m in Yields(polls, agent, mark) ==> m.id > mark
  {
    if polls != [] {
      var batch := PollBatch(polls[0].log, agent, polls[0].wanted, mark);
      var mark' := NextMark(batch, mark);
      PollMembers(polls[0].log, agent, polls[0].wanted, mark);
      WatchYieldsOnce(polls[1..], agent, mark');
      DistinctConcat(batch, Yields(polls[1..], agent, mark'));
    }
  }

  /** `later` is `earlier` with messages appended that are not yet delivered to the agent; for the agent
      nothing was delivered in between. */
  ghost predicate Grows(earlier: Log, later: Log, agent: string) {
    && |earlier| <= |later|
    && (forall i :: 0 <= i < |earlier| ==> later[i].msg == earlier[i].msg)
    && (forall i :: 0 <= i < |earlier| ==> (agent in later[i].deliveredTo <==> agent in earlier[i].deliveredTo))
    && (forall i :: |earlier| <= i < |later| ==> agent !in later[i].deliveredTo)
  }

  lemma {:induction false} SameBacklog(earlier: Log, later: Log, agent: string, wanted: string -> bool)
    requires |earlier| == |later| && Grows(earlier, later, agent)
    ensures Undelivered(earlier, agent, wanted) == Undelivered(later, agent, wanted)
  {
    if later != [] {
      SameBacklog(earlier[..|earlier| - 1], later[..|later| - 1], agent, wanted);
    }
  }

  /** The backlog of a grown log is the old backlog followed by newer messages. */
  lemma BacklogGrows(earlier: Log, later: Log, agent: string, wanted: string -> bool) returns (added: seq<Message>)
    requires IdsAscending(later) && Grows(earlier, later, agent)
    ensures Undelivered(later, agent, wanted) == Undelivered(earlier, agent, wanted) + added
    ensures forall m, i :: m in added && 0 <= i < |earlier| ==> earlier[i].msg.id < m.id
  {
    var n := |earlier|;
    SameBacklog(earlier, later[..n], agent, wanted);
    UndeliveredPrefix(later, agent, wanted, n);
    var whole := Undelivered(later, agent, wanted);
    var old_ := Undelivered(earlier, agent, wanted);
    added := whole[|old_|..];
    AddedAreNew(later, agent, wanted, n);
    assert forall i :: 0 <= i < |earlier| ==> earlier[i].msg == later[i].msg;
  }

  lemma {:induction false} AddedAreNew(log: Log, agent: string, wanted: string -> bool, n: nat)
    requires IdsAscending(log) && n <= |log|
    ensures var whole, part := Undelivered(log, agent, wanted), Undelivered(log[..n], agent, wanted);
      |part| <= |whole| && forall m, i :: m in whole[|part|..] && 0 <= i < n ==> log[i].msg.id < m.id
  {
    hide Undelivered;
    if n == |log| {
      assert log[..n] == log;
    } else {
      var init := log[..|log| - 1];
      AddedAreNew(init, agent, wanted, n);
      assert init[..n] == log[..n] && log[..|init| + 1] == log;
      UndeliveredNext(log, agent, wanted, |init|);
      var whole, part := Undelivered(log, agent, wanted), Undelivered(log[..n], agent, wanted);
      forall m, i | m in whole[|part|..] && 0 <= i < n ensures log[i].msg.id < m.id {
        var k :| |part| <= k < |whole| && whole[k] == m;
        assert k < |Undelivered(init, agent, wanted)| ==> m in Undelivered(init, agent, wanted)[|part|..];
        assert init[i] == log[i];
      }
    }
  }

  /** What is above the mark later is what is above it now plus what will be above the next mark. */
  lemma SplitAtPoll(earlier: Log, later: Log, agent: string, wanted: string -> bool, mark: int)
    requires IdsAscending(earlier) && IdsAscending(later) && Grows(earlier, later, agent)
    ensures var mark' := NextMark(PollBatch(earlier, agent, wanted, mark), mark);
      Above(Undelivered(later, agent, wanted), mark)
        == Above(Undelivered(earlier, agent, wanted), mark) + Above(Undelivered(later, agent, wanted), mark')
  {
    hide Sort, Filter, Undelivered, NextMark;
    var batch := PollBatch(earlier, agent, wanted, mark);
    var mark' := NextMark(batch, mark);
    var now := Undelivered(earlier, agent, wanted);
    var added := BacklogGrows(earlier, later, agent, wanted);
    var above, above' := Beyond(mark), Beyond(mark');
    PollMembers(earlier, agent, wanted, mark);
    MultisetMembers(batch, Above(now, mark));
    FilterConcat(above, now, added);
    FilterConcat(above', now, added);
    forall m | m in now ensures !above'(m) {
      if m.id > mark { assert m in Above(now, mark); }
    }
    FilterNone(above', now);
    if mark' != mark {
      var top :| top in batch && top.id == mark';
      assert top in now;
      UndeliveredMembers(earlier, agent, wanted);
    }
    FilterCongruence(above, above', added);
  }

  /** Under fixed subscriptions and with no deliveries to the agent, the polls of one watch together
      yield exactly the matching undelivered messages above the starting mark. */
  lemma {:induction false} WatchComplete(polls: seq<Poll>, agent: string, wanted: string -> bool, mark: int)
    requires polls != [] && forall i :: 0 <= i < |polls| ==> polls[i].wanted == wanted && IdsAscending(polls[i].log)
    requires forall i :: 0 <= i < |polls| - 1 ==> Grows(polls[i].log, polls[i + 1].log, agent)
    ensures multiset(Yields(polls, agent, mark))
         == multiset(Above(Undelivered(polls[|polls| - 1].log, agent, wanted), mark))
  {
    hide Sort, Filter, Undelivered, NextMark, PollBatch;
    var first, last := polls[0].log, polls[|polls| - 1].log;
    var batch := PollBatch(first, agent, wanted, mark);
    var mark' := NextMark(batch, mark);
    PollMembers(first, agent, wanted, mark);
    if |polls| == 1 {
      assert polls[1..] == [];
    } else {
      GrowsAlong(polls, agent);
      SplitAtPoll(first, last, agent, wanted, mark);
      forall i | 0 <= i < |polls[1..]| - 1 ensures Grows(polls[1..][i].log, polls[1..][i + 1].log, agent) {
        assert Grows(polls[i + 1].log, polls[i + 1 + 1].log, agent);
      }
      WatchComplete(polls[1..], agent, wanted, mark');
    }
  }

  lemma {:induction false} GrowsAlong(polls: seq<Poll>, agent: string)
    requires polls != [] && forall i :: 0 <= i < |polls| - 1 ==> Grows(polls[i].log, polls[i + 1].log, agent)
    ensures Grows(polls[0].log, polls[|polls| - 1].log, agent)
  {
    if |polls| > 1 {
      var init := polls[..|polls| - 1];
      GrowsAlong(init, agent);
      assert Grows(polls[|polls| - 2].log, polls[|polls| - 2 + 1].log, agent);
    }
  }
}
