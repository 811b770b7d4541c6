/** Replaying a channel by sequence number, page by page. */
module StoreReplay {
  import opened Options
  import opened Sorting
  import opened StoreModel
  import opened StoreDrain
  import opened StoreRuns

  predicate InRange(m: Message, channel: string, since: int, until: Option<int>) {
    m.channel == channel && m.seqNo >= since && (until.None? || m.seqNo <= until.value)
  }

  predicate SeqBefore(m: Message, n: Message) {
    m.seqNo < n.seqNo || (m.seqNo == n.seqNo && m.id <= n.id)
  }

  function Requested(channel: string, since: int, until: Option<int>): Message -> bool {
    (m: Message) => InRange(m, channel, since, until)
  }

  function From(since: int): Message -> bool {
    (m: Message) => m.seqNo >= since
  }

  /** The whole of a requested range, in (seq, id) order. */
  function Range(log: Log, channel: string, since: int, until: Option<int>): seq<Message> {
    Sort(SeqBefore, Filter(Requested(channel, since, until), Messages(log)))
  }

  /** The slice `s[:k]`; a negative k counts from the end. */
  function SliceTo(s: seq<Message>, k: int): (r: seq<Message>)
    ensures r <= s
  {
    if k >= |s| then s else if k >= 0 then s[..k] else if |s| + k > 0 then s[..|s| + k] else []
  }

  /** `replay`: one page, and whether the range holds more messages than the limit. */
  function Replay(log: Log, channel: string, since: int, until: Option<int>, limit: int): (seq<Message>, bool) {
    var matches := Range(log, channel, since, until);
    (SliceTo(matches, limit), |matches| > limit)
  }

  /** A client reading page after page, each from one past the last number of the page before. */
  function PageAll(log: Log, channel: string, since: int, until: Option<int>, limit: int): seq<Message>
    requires limit >= 1
    decreases |Range(log, channel, since, until)|
  {
    var (page, more) := Replay(log, channel, since, until, limit);
    if more then
      var next := page[|page| - 1].seqNo + 1;
      NextRange(log, channel, since, until, limit);
      page + PageAll(log, channel, next, until, limit)
    else page
  }

  lemma SeqOrder()
    ensures TotalPreorder(SeqBefore)
  {
  }

  lemma RangeSorted(log: Log, channel: string, since: int, until: Option<int>)
    requires IdsAscending(log)
    ensures var r := Range(log, channel, since, until);
      SortedBy(SeqBefore, r) && NoTies(SeqBefore, r) && Distinct(r)
    ensures forall m :: m in Range(log, channel, since, until) <==> m in Messages(log) && InRange(m, channel, since, until)
  {
    hide Sort, Filter;
    var ms := Messages(log);
    var inRange := Requested(channel, since, until);
    SeqOrder();
    SortSorts(SeqBefore, Filter(inRange, ms));
    MultisetMembers(Range(log, channel, since, until), Filter(inRange, ms));
    AscendingNoTies(ms);
    FilterDistinct(inRange, ms);
    PermutationDistinct(Filter(inRange, ms), Range(log, channel, since, until));
    AscendingNoSeqTies(ms);
  }

  lemma AscendingNoSeqTies(ms: seq<Message>)
    requires Ascending(ms)
    ensures NoTies(SeqBefore, ms)
  {
    forall x, y | x in ms && y in ms && SeqBefore(x, y) && SeqBefore(y, x) ensures x == y {
      var i :| 0 <= i < |ms| && ms[i] == x;
      var j :| 0 <= j < |ms| && ms[j] == y;
    }
  }

  /** Raising the lower bound filters the range. */
  lemma RaiseSince(log: Log, channel: string, since: int, since': int, until: Option<int>)
    requires IdsAscending(log) && since <= since'
    ensures Range(log, channel, since', until) == Filter(From(since'), Range(log, channel, since, until))
  {
    var ms := Messages(log);
    var wide, narrow := Range(log, channel, since, until), Range(log, channel, since', until);
    var kept := Filter(From(since'), wide);
    RangeSorted(log, channel, since, until);
    RangeSorted(log, channel, since', until);
    FilterSeqSorted(From(since'), wide);
    FilterDistinct(From(since'), wide);
    DistinctSameMembers(narrow, kept);
    SortedUnique(SeqBefore, narrow, kept);
  }

  lemma {:induction false} FilterSeqSorted(p: Message -> bool, ms: seq<Message>)
    requires SortedBy(SeqBefore, ms)
    ensures SortedBy(SeqBefore, Filter(p, ms))
  {
    if ms != [] {
      FilterSeqSorted(p, ms[1..]);
      forall j | 0 <= j < |Filter(p, ms[1..])| ensures SeqBefore(ms[0], Filter(p, ms[1..])[j]) {
        assert Filter(p, ms[1..])[j] in ms[1..];
      }
    }
  }

  /** A further page starts from a strictly smaller range. */
  lemma NextRange(log: Log, channel: string, since: int, until: Option<int>, limit: int)
    requires limit >= 1 && |Range(log, channel, since, until)| > limit
    ensures |Range(log, channel, Range(log, channel, since, until)[limit - 1].seqNo + 1, until)|
          < |Range(log, channel, since, until)|
  {
    hide Sort, Filter;
    var last := Range(log, channel, since, until)[limit - 1];
    SortedMember(SeqBefore, Filter(Requested(channel, since, until), Messages(log)), limit - 1);
    StricterFilter(Requested(channel, since, until), Requested(channel, last.seqNo + 1, until), Messages(log), last);
  }

  lemma {:induction false} StricterFilter(p: Message -> bool, q: Message -> bool, ms: seq<Message>, out: Message)
    requires forall m :: m in ms && q(m) ==> p(m)
    ensures |Filter(q, ms)| <= |Filter(p, ms)|
    ensures out in ms && p(out) && !q(out) ==> |Filter(q, ms)| < |Filter(p, ms)|
  {
    if ms != [] {
      StricterFilter(p, q, ms[1..], out);
    }
  }

  /** The first page of several, and the pages after it. */
  lemma PageStep(log: Log, channel: string, since: int, until: Option<int>, limit: int)
    requires IdsAscending(log) && limit >= 1 && |Range(log, channel, since, until)| > limit
    ensures var whole := Range(log, channel, since, until);
      var next := whole[limit - 1].seqNo + 1;
      && since < next
      && |Range(log, channel, next, until)| < |whole|
      && PageAll(log, channel, since, until, limit) == whole[..limit] + PageAll(log, channel, next, until, limit)
  {
    hide Sort, Filter;
    var whole := Range(log, channel, since, until);
    NextRange(log, channel, since, until, limit);
    assert since <= whole[limit - 1].seqNo by {
      RangeSorted(log, channel, since, until);
      assert whole[limit - 1] in whole;
    }
  }

  /** No two messages of the range carry the same number. */
  ghost predicate NumbersDistinct(ms: seq<Message>) {
    forall i, j :: 0 <= i < j < |ms| ==> ms[i].seqNo < ms[j].seqNo
  }

  /** With distinct numbers, paging returns the requested range, complete, once and in order. */
  lemma {:induction false} PagingComplete(log: Log, channel: string, since: int, until: Option<int>, limit: int)
    requires IdsAscending(log) && limit >= 1 && NumbersDistinct(Range(log, channel, since, until))
    ensures PageAll(log, channel, since, until, limit) == Range(log, channel, since, until)
    decreases |Range(log, channel, since, until)|
  {
    hide Sort, Filter, Range;
    var whole := Range(log, channel, since, until);
    if |whole| > limit {
      var next := whole[limit - 1].seqNo + 1;
      PageStep(log, channel, since, until, limit);
      assert Range(log, channel, next, until) == whole[limit..] && NumbersDistinct(whole[limit..]) by {
        RaiseSince(log, channel, since, next, until);
        CutAt(whole, limit);
      }
      PagingComplete(log, channel, next, until, limit);
      Parts(whole, limit);
    }
  }

  lemma CutSides(whole: seq<Message>, k: nat)
    requires 0 < k < |whole| && NumbersDistinct(whole)
    ensures forall m :: m in whole[..k] ==> m.seqNo <= whole[k - 1].seqNo
    ensures forall m :: m in whole[k..] ==> m.seqNo > whole[k - 1].seqNo
    ensures NumbersDistinct(whole[k..])
  {
    assert forall i :: 0 <= i < k ==> whole[..k][i] == whole[i];
    assert forall i :: 0 <= i < |whole| - k ==> whole[k..][i] == whole[k + i];
  }

  lemma CutAt(whole: seq<Message>, k: nat)
    requires 0 < k < |whole| && NumbersDistinct(whole)
    ensures Filter(From(whole[k - 1].seqNo + 1), whole) == whole[k..]
    ensures NumbersDistinct(whole[k..])
  {
    var p := From(whole[k - 1].seqNo + 1);
    CutSides(whole, k);
    Parts(whole, k);
    FilterConcat(p, whole[..k], whole[k..]);
    FilterNone(p, whole[..k]);
    FilterEverything(p, whole[k..]);
  }

  /** In a dense store paging always reproduces the range. */
  lemma DensePaging(s: State, channel: string, since: int, until: Option<int>, limit: int)
    requires Dense(s) && IdsAscending(s.log) && limit >= 1
    ensures PageAll(s.log, channel, since, until, limit) == Range(s.log, channel, since, until)
  {
    DenseNumbers(s, channel, since, until);
    PagingComplete(s.log, channel, since, until, limit);
  }

  lemma DenseNumbers(s: State, channel: string, since: int, until: Option<int>)
    requires Dense(s) && IdsAscending(s.log)
    ensures NumbersDistinct(Range(s.log, channel, since, until))
  {
    hide Sort, Filter, Range;
    var whole := Range(s.log, channel, since, until);
    var line := OnChannel(Messages(s.log), channel);
    RangeSorted(s.log, channel, since, until);
    assert ChannelDense(Messages(s.log), LastSeq(s.channelSeq, channel), channel);
    assert forall m :: m in whole ==> m in line;
    DistinctlySorted(whole, line);
  }

  lemma DistinctlySorted(whole: seq<Message>, line: seq<Message>)
    requires SortedBy(SeqBefore, whole) && Distinct(whole) && forall m :: m in whole ==> m in line
    requires forall k :: 0 <= k < |line| ==> line[k].seqNo == k + 1
    ensures NumbersDistinct(whole)
  {
    forall i, j | 0 <= i < j < |whole| ensures whole[i].seqNo < whole[j].seqNo {
      assert whole[i] in whole && whole[j] in whole;
      var a :| 0 <= a < |line| && line[a] == whole[i];
      var b :| 0 <= b < |line| && line[b] == whole[j];
      assert SeqBefore(whole[i], whole[j]);
    }
  }

  /** Paging is complete for every page size exactly when no number of the range is shared: a page that
      ends between two messages of the same number loses the second. */
  lemma PagingCompleteIffDistinct(log: Log, channel: string, since: int, until: Option<int>)
    requires IdsAscending(log)
    ensures (forall limit :: limit >= 1 ==> PageAll(log, channel, since, until, limit) == Range(log, channel, since, until))
      <==> NumbersDistinct(Range(log, channel, since, until))
  {
    var whole := Range(log, channel, since, until);
    if NumbersDistinct(whole) {
      forall limit | limit >= 1 ensures PageAll(log, channel, since, until, limit) == whole {
        PagingComplete(log, channel, since, until, limit);
      }
    } else {
      RangeSorted(log, channel, since, until);
      var k := SharedNumber(whole);
      PageLosesShared(log, channel, since, until, k);
    }
  }

  /** Sorted numbers that are not strictly increasing have two equal neighbours. */
  lemma SharedNumber(ms: seq<Message>) returns (k: nat)
    requires SortedBy(SeqBefore, ms) && !NumbersDistinct(ms)
    ensures 1 <= k < |ms| && ms[k - 1].seqNo == ms[k].seqNo
  {
    var i, j :| 0 <= i < j < |ms| && ms[i].seqNo >= ms[j].seqNo;
    assert SeqBefore(ms[i], ms[j]);
    k := i + 1;
    assert SeqBefore(ms[i], ms[k]);
    if k < j { assert SeqBefore(ms[k], ms[j]); }
  }

  lemma PageLosesShared(log: Log, channel: string, since: int, until: Option<int>, k: nat)
    requires IdsAscending(log)
    requires var whole := Range(log, channel, since, until);
      1 <= k < |whole| && whole[k - 1].seqNo == whole[k].seqNo
    ensures PageAll(log, channel, since, until, k) != Range(log, channel, since, until)
  {
    hide Sort, Filter, Range;
    var whole := Range(log, channel, since, until);
    var next := whole[k - 1].seqNo + 1;
    PageStep(log, channel, since, until, k);
    PagedFrom(log, channel, next, until, k);
    LosesNext(whole, k, PageAll(log, channel, next, until, k));
  }

  lemma LosesNext(whole: seq<Message>, k: nat, rest: seq<Message>)
    requires k < |whole| && forall m :: m in rest ==> m.seqNo > whole[k].seqNo
    ensures whole[..k] + rest != whole
  {
    if rest != [] {
      assert (whole[..k] + rest)[k] == rest[0];
      assert rest[0] in rest;
    }
  }

  /** Pages never reach below the requested number. */
  lemma {:induction false} PagedFrom(log: Log, channel: string, since: int, until: Option<int>, limit: int)
    requires IdsAscending(log) && limit >= 1
    ensures forall m :: m in PageAll(log, channel, since, until, limit) ==> m.seqNo >= since
    decreases |Range(log, channel, since, until)|
  {
    hide Sort, Filter, Range;
    var whole := Range(log, channel, since, until);
    assert forall m :: m in whole ==> m.seqNo >= since by {
      RangeSorted(log, channel, since, until);
    }
    if |whole| > limit {
      PageStep(log, channel, since, until, limit);
      PagedFrom(log, channel, whole[limit - 1].seqNo + 1, until, limit);
      Parts(whole, limit);
    }
  }

  /** A limit of zero returns nothing and still announces more, as long as the range is not empty. */
  lemma ZeroLimit(log: Log, channel: string, since: int, until: Option<int>)
    ensures Replay(log, channel, since, until, 0) == ([], Range(log, channel, since, until) != [])
  {
  }
}
