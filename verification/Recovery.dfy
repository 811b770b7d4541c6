/** The reference agent's recovery: replaying missed messages page by page from persisted cursors. */
module Recovery {
  import opened Options
  import opened Sorting
  import opened StoreModel
  import opened StoreRuns
  import opened StoreReplay
  import StoreDrain

  /** What the replay loop hands to the handler for a backlog: every page after the first starts again at
      the last message of the page before. */
  function Handled(backlog: seq<Message>, limit: int): seq<Message>
    requires limit >= 2
    decreases |backlog|
  {
    if |backlog| <= limit then backlog else backlog[..limit] + Handled(backlog[limit - 1..], limit)
  }

  // ---------------------------------------------------------------- what is handled, how often, in which order

  /** The last message of a page that is not the last page. */
  predicate PageBoundary(i: int, length: int, limit: int)
    requires limit >= 2
  {
    0 < i < length - 1 && i % (limit - 1) == 0
  }

  lemma MultipleIsFar(d: int, k: int)
    requires d >= 1
    ensures k >= 1 ==> k * d >= d
    ensures k <= -1 ==> k * d <= -d
  {
  }

  lemma ModUnique(x: int, d: int, q: int, r: int)
    requires d >= 1 && x == q * d + r && 0 <= r < d
    ensures x % d == r
  {
    var k := q - x / d;
    assert k * d == q * d - (x / d) * d == x % d - r;
    MultipleIsFar(d, k);
  }

  lemma ModShift(i: int, d: int)
    requires d >= 1 && i >= d
    ensures (i - d) % d == i % d
  {
    var q, r := i / d, i % d;
    assert (q - 1) * d == q * d - d;
    ModUnique(i - d, d, q - 1, r);
  }

  lemma PageBoundaries(i: nat, length: nat, limit: int)
    requires limit >= 2 && i < length
    ensures i < limit - 1 || length <= limit ==> !PageBoundary(i, length, limit)
    ensures limit - 1 <= i && limit < length ==>
      (PageBoundary(i, length, limit) <==> i == limit - 1 || PageBoundary(i - (limit - 1), length - (limit - 1), limit))
    ensures !PageBoundary(0, length, limit)
  {
    var d := limit - 1;
    if 0 < i < d {
      ModUnique(i, d, 0, i);
    } else if d <= i {
      ModShift(i, d);
      ModUnique(0, d, 0, 0);
    }
  }

  /** Every missed message is handled; those on a page boundary twice, all others once. */
  lemma {:induction false} HandledHowOften(backlog: seq<Message>, limit: int, i: nat)
    requires limit >= 2 && Distinct(backlog) && i < |backlog|
    ensures multiset(Handled(backlog, limit))[backlog[i]] == if PageBoundary(i, |backlog|, limit) then 2 else 1
    decreases |backlog|
  {
    hide PageBoundary, Handled;
    var d := limit - 1;
    PageBoundaries(i, |backlog|, limit);
    PageOrAll(backlog, limit);
    if |backlog| <= limit {
      DistinctMultiplicity(backlog, backlog[i]);
    } else {
      var page, rest := backlog[..limit], backlog[d..];
      FirstPage(backlog, limit, i);
      if i >= d {
        assert rest[i - d] == backlog[i];
        HandledHowOften(rest, limit, i - d);
        PageBoundaries(0, |rest|, limit);
      } else {
        OnlyBacklogHandled(rest, limit);
        assert backlog[i] !in rest;
      }
    }
  }

  lemma FirstPage(backlog: seq<Message>, limit: int, i: nat)
    requires limit >= 2 && Distinct(backlog) && i < |backlog| && limit < |backlog|
    ensures multiset(Handled(backlog, limit))[backlog[i]] ==
      (if i < limit then 1 else 0) + multiset(Handled(backlog[limit - 1..], limit))[backlog[i]]
  {
    var page := backlog[..limit];
    DistinctMultiplicity(page, backlog[i]);
    assert i < limit ==> page[i] == backlog[i];
    assert i >= limit ==> backlog[i] !in page;
  }

  lemma {:induction false} OnlyBacklogHandled(backlog: seq<Message>, limit: int)
    requires limit >= 2
    ensures forall m :: m in Handled(backlog, limit) <==> m in backlog
    decreases |backlog|
  {
    if |backlog| > limit {
      var page, rest := backlog[..limit], backlog[limit - 1..];
      OnlyBacklogHandled(rest, limit);
      assert backlog == backlog[..limit - 1] + rest;
      assert forall m :: m in page ==> m in backlog;
      assert forall m :: m in backlog[..limit - 1] ==> m in page by {
        assert page[..limit - 1] == backlog[..limit - 1];
      }
    }
  }

  ghost predicate InOrder(ms: seq<Message>) {
    forall i, j :: 0 <= i < j < |ms| ==> ms[i].seqNo <= ms[j].seqNo
  }

  /** Messages are handled in nondecreasing sequence order. */
  lemma {:induction false} HandledInOrder(backlog: seq<Message>, limit: int)
    requires limit >= 2 && NumbersDistinct(backlog)
    ensures InOrder(Handled(backlog, limit))
    decreases |backlog|
  {
    if |backlog| > limit {
      var rest := backlog[limit - 1..];
      HandledInOrder(rest, limit);
      OnlyBacklogHandled(rest, limit);
      var tail := Handled(rest, limit);
      forall k | 0 <= k < |tail| ensures tail[k].seqNo >= backlog[limit - 1].seqNo {
        assert tail[k] in rest;
        var a :| 0 <= a < |rest| && rest[a] == tail[k];
        assert backlog[limit - 1 + a] == tail[k];
      }
      JoinInOrder(backlog[..limit], tail, backlog[limit - 1].seqNo);
    }
  }

  lemma JoinInOrder(s: seq<Message>, t: seq<Message>, n: int)
    requires InOrder(s) && InOrder(t)
    requires (forall i :: 0 <= i < |s| ==> s[i].seqNo <= n) && (forall i :: 0 <= i < |t| ==> t[i].seqNo >= n)
    ensures InOrder(s + t)
  {
  }

  // ---------------------------------------------------------------- the pages of a dense channel

  /** Replaying from the last number of a page returns that message and everything after it. */
  lemma RangeFromLast(log: Log, channel: string, since: int, k: nat)
    requires IdsAscending(log) && NumbersDistinct(Range(log, channel, since, None)) && k < |Range(log, channel, since, None)|
    ensures var whole := Range(log, channel, since, None);
      Range(log, channel, whole[k].seqNo, None) == whole[k..] && NumbersDistinct(whole[k..])
  {
    hide Sort, Filter, Range;
    var whole := Range(log, channel, since, None);
    assert whole[k].seqNo >= since by {
      RangeSorted(log, channel, since, None);
      assert whole[k] in whole;
    }
    RaiseSince(log, channel, since, whole[k].seqNo, None);
    SplitSides(whole, k);
    Parts(whole, k);
    FilterConcat(From(whole[k].seqNo), whole[..k], whole[k..]);
    StoreDrain.FilterNone(From(whole[k].seqNo), whole[..k]);
    StoreDrain.FilterEverything(From(whole[k].seqNo), whole[k..]);
  }

  lemma SplitSides(whole: seq<Message>, k: nat)
    requires k < |whole| && NumbersDistinct(whole)
    ensures forall m :: m in whole[..k] ==> m.seqNo < whole[k].seqNo
    ensures forall m :: m in whole[k..] ==> m.seqNo >= whole[k].seqNo
    ensures NumbersDistinct(whole[k..])
  {
    assert forall i :: 0 <= i < k ==> whole[..k][i] == whole[i];
    assert forall i :: 0 <= i < |whole| - k ==> whole[k..][i] == whole[k + i];
  }

  /** The cursor file on disk. Corrupt is what does not parse as integers by channel. */
  datatype CursorFile = Missing | Corrupt | Stored(cursors: map<string, int>)

  /** A missing or corrupt file reads as no cursors. */
  function Cursors(file: CursorFile): map<string, int> {
    match file
    case Stored(cursors) => cursors
    case _ => map[]
  }

  class SeqState {
    var file: CursorFile

    constructor (file: CursorFile)
      ensures this.file == file
    {
      this.file := file;
    }

    method Load() returns (cursors: map<string, int>)
      ensures cursors == Cursors(file)
      ensures cursors == if file.Stored? then file.cursors else map[]
    {
      match file {
        case Missing => cursors := map[];
        case Corrupt => cursors := map[];
        case Stored(stored) => cursors := stored;
      }
    }

    /** Load, set one entry, replace the file. Of a corrupt file nothing but the new entry is left. */
    method Update(channel: string, n: int)
      modifies this
      ensures file == Stored(Cursors(old(file))[channel := n])
      ensures old(file).Stored? ==> file == Stored(old(file).cursors[channel := n])
      ensures !old(file).Stored? ==> file == Stored(map[channel := n])
    {
      var current := Load();
      current := current[channel := n];
      file := Stored(current);
    }
  }

  function Missed(s: State, channel: string, cursor: int): seq<Message> {
    Range(s.log, channel, cursor + 1, None)
  }

  function NewCursor(s: State, channel: string, cursor: int): int {
    var backlog := Missed(s, channel, cursor);
    if backlog == [] then cursor else backlog[|backlog| - 1].seqNo
  }

  /** What recovering the given channels hands to the handler, channel by channel. */
  function HandledAll(s: State, channels: seq<string>, cursors: map<string, int>, limit: int): seq<Message>
    requires limit >= 2 && forall c :: c in channels ==> c in cursors
  {
    if channels == [] then []
    else
      var last := channels[|channels| - 1];
      HandledAll(s, channels[..|channels| - 1], cursors, limit) + Handled(Missed(s, last, cursors[last]), limit)
  }

  class Agent {
    const store: State
    const seqState: SeqState
    var lastSeq: map<string, int>
    var handled: seq<Message>

    ghost predicate Valid()
    {
      Dense(store) && IdsAscending(store.log)
    }

    constructor (store: State, seqState: SeqState)
      ensures this.store == store && this.seqState == seqState && lastSeq == map[] && handled == []
    {
      this.store, this.seqState, lastSeq, handled := store, seqState, map[], [];
    }

    /** Handle one page, advancing the cursor after each message. */
    method HandlePage(channel: string, page: seq<Message>, since0: int) returns (since: int)
      requires Valid() && forall m :: m in page ==> m.seqNo >= 1
      modifies this, seqState
      ensures handled == old(handled) + page
      ensures since == if page == [] then since0 else page[|page| - 1].seqNo
      ensures seqState.file == if page == [] then old(seqState.file) else Stored(Cursors(old(seqState.file))[channel := since])
      ensures lastSeq == if page == [] then old(lastSeq) else old(lastSeq)[channel := since]
    {
      since := since0;
      for k := 0 to |page|
        invariant handled == old(handled) + page[..k]
        invariant since == if k == 0 then since0 else page[k - 1].seqNo
        invariant seqState.file == if k == 0 then old(seqState.file) else Stored(Cursors(old(seqState.file))[channel := since])
        invariant lastSeq == if k == 0 then old(lastSeq) else old(lastSeq)[channel := since]
      {
        var envelope := page[k];
        assert envelope in page && page[..k + 1] == page[..k] + [envelope];
        handled := handled + [envelope];
        var n := envelope.seqNo;
        if n != 0 {
          since := n;
          lastSeq := lastSeq[channel := n];
          seqState.Update(channel, n);
        }
      }
      assert page[..|page|] == page;
    }

    /** Request one page and handle it; `rest` is the backlog still to be handled. */
    method OnePage(channel: string, since0: int, limit: int, ghost rest: seq<Message>) returns (since: int, hasMore: bool)
      requires Valid() && limit >= 2 && rest == Range(store.log, channel, since0, None)
      modifies this, seqState
      ensures hasMore <==> |rest| > limit
      ensures handled + (if hasMore then Handled(rest[limit - 1..], limit) else []) == old(handled) + Handled(rest, limit)
      ensures hasMore ==> Range(store.log, channel, since, None) == rest[limit - 1..]
      ensures rest == [] ==> seqState.file == old(seqState.file) && lastSeq == old(lastSeq)
      ensures rest != [] ==> seqState.file == Stored(Cursors(old(seqState.file))[channel := since]) && lastSeq == old(lastSeq)[channel := since]
      ensures rest != [] && !hasMore ==> since == rest[|rest| - 1].seqNo
    {
      hide Range, Handled, NumbersDistinct;
      DenseNumbers(store, channel, since0, None);
      MissedNumbers(store, channel, since0 - 1);
      var page, more := Replay(store.log, channel, since0, None, limit).0, Replay(store.log, channel, since0, None, limit).1;
      PageOrAll(rest, limit);
      Parts(rest, |page|);
      if more {
        RangeFromLast(store.log, channel, since0, limit - 1);
      }
      since := HandlePage(channel, page, since0);
      hasMore := more;
    }

    /** Replay one channel from its cursor, page by page. */
    method RecoverChannel(channel: string, cursor: int, limit: int)
      requires Valid() && limit >= 2
      modifies this, seqState
      ensures handled == old(handled) + Handled(Missed(store, channel, cursor), limit)
      ensures Recovered(Cursors(old(seqState.file)), Cursors(seqState.file), channel, Missed(store, channel, cursor))
      ensures Missed(store, channel, cursor) == [] ==> seqState.file == old(seqState.file)
      ensures Recovered(old(lastSeq), lastSeq, channel, Missed(store, channel, cursor))
    {
      hide Range, Handled;
      ghost var backlog := Missed(store, channel, cursor);
      ghost var rest := backlog;
      var since, hasMore := cursor + 1, true;
      while hasMore
        invariant hasMore ==> rest == Range(store.log, channel, since, None)
        invariant hasMore ==> backlog == rest || (rest != [] && backlog != [] && rest[|rest| - 1] == backlog[|backlog| - 1])
        invariant handled + (if hasMore then Handled(rest, limit) else []) == old(handled) + Handled(backlog, limit)
        invariant hasMore && rest == [] ==> seqState.file == old(seqState.file) && lastSeq == old(lastSeq)
        invariant hasMore ==> seqState.file == old(seqState.file) || seqState.file == Stored(Cursors(old(seqState.file))[channel := since])
        invariant hasMore ==> lastSeq == old(lastSeq) || lastSeq == old(lastSeq)[channel := since]
        invariant !hasMore ==> Recovered(Cursors(old(seqState.file)), Cursors(seqState.file), channel, backlog)
        invariant !hasMore && backlog == [] ==> seqState.file == old(seqState.file)
        invariant !hasMore ==> Recovered(old(lastSeq), lastSeq, channel, backlog)
        decreases hasMore, |rest|
      {
        since, hasMore := OnePage(channel, since, limit, rest);
        if hasMore {
          rest := rest[limit - 1..];
        }
      }
    }

    /** Recover every channel of the cursor file; `order` is the file's order. */
    method RecoverFromState(order: seq<string>, limit: int)
      requires Valid() && limit >= 2
      requires Distinct(order) && forall c :: c in order <==> c in Cursors(seqState.file)
      modifies this, seqState
      ensures handled == old(handled) + HandledAll(store, order, Cursors(old(seqState.file)), limit)
      ensures Cursors(seqState.file) ==
        map c | c in Cursors(old(seqState.file)) :: NewCursor(store, c, Cursors(old(seqState.file))[c])
      ensures lastSeq == Cursors(seqState.file)
      ensures Cursors(old(seqState.file)) == map[] ==> handled == old(handled) && seqState.file == old(seqState.file)
    {
      hide Handled, HandledAll, Missed, NewCursor, Recovered, Dense;
      var persisted := seqState.Load();
      lastSeq := persisted;
      NothingHandled(store, order, persisted, limit);
      for k := 0 to |order|
        invariant handled == old(handled) + HandledAll(store, order[..k], persisted, limit)
        invariant Cursors(seqState.file).Keys == persisted.Keys && lastSeq == Cursors(seqState.file)
        invariant k == 0 ==> seqState.file == old(seqState.file)
        invariant forall c :: c in persisted ==>
          Cursors(seqState.file)[c] == if c in order[..k] then NewCursor(store, c, persisted[c]) else persisted[c]
      {
        var channel := order[k];
        HandledAllNext(store, order, persisted, limit, k);
        assert channel in order && channel !in order[..k];
        ghost var cursors := Cursors(seqState.file);
        RecoverChannel(channel, persisted[channel], limit);
        CursorAfter(store, channel, cursors, Cursors(seqState.file));
        CursorAfter(store, channel, cursors, lastSeq);
      }
      assert order[..|order|] == order;
      if order == [] {
        NothingHandled(store, order, persisted, limit);
      } else {
        assert order[0] in order;
      }
    }
  }

  /** The cursor map after recovering a channel with this backlog. */
  ghost predicate Recovered(before: map<string, int>, after: map<string, int>, channel: string, backlog: seq<Message>) {
    after == if backlog == [] then before else before[channel := backlog[|backlog| - 1].seqNo]
  }

  lemma CursorAfter(s: State, channel: string, before: map<string, int>, after: map<string, int>)
    requires channel in before && Recovered(before, after, channel, Missed(s, channel, before[channel]))
    ensures after == before[channel := NewCursor(s, channel, before[channel])]
  {
  }

  /** Where the agent stands on a channel; a channel it has no cursor for counts as never read. */
  function CursorOf(cursors: map<string, int>, channel: string): int {
    if channel in cursors then cursors[channel] else 0
  }

  ghost predicate HandlesEverything(s: State, order: seq<string>, cursors: map<string, int>, limit: int)
    requires limit >= 2 && forall c :: c in order ==> c in cursors
  {
    forall m :: m in Messages(s.log) && m.seqNo > CursorOf(cursors, m.channel) ==> m in HandledAll(s, order, cursors, limit)
  }

  lemma {:induction false} HandledAllMembers(s: State, channels: seq<string>, cursors: map<string, int>, limit: int)
    requires limit >= 2 && IdsAscending(s.log) && forall c :: c in channels ==> c in cursors
    ensures forall m :: m in HandledAll(s, channels, cursors, limit) <==>
      m in Messages(s.log) && m.channel in channels && m.seqNo > cursors[m.channel]
  {
    hide Handled, Range;
    if channels != [] {
      var init, last := channels[..|channels| - 1], channels[|channels| - 1];
      assert channels == init + [last];
      HandledAllMembers(s, init, cursors, limit);
      OnlyBacklogHandled(Missed(s, last, cursors[last]), limit);
      RangeSorted(s.log, last, cursors[last] + 1, None);
    }
  }

  /** Recovery handles every message above the cursors, an absent cursor read as 0, exactly when every
      channel that holds a message has an entry in the file. */
  lemma RecoversEverythingIff(s: State, order: seq<string>, cursors: map<string, int>, limit: int)
    requires Dense(s) && IdsAscending(s.log) && limit >= 2 && forall c :: c in order <==> c in cursors
    ensures HandlesEverything(s, order, cursors, limit) <==> forall m :: m in Messages(s.log) ==> m.channel in cursors
  {
    hide HandledAll, Range;
    HandledAllMembers(s, order, cursors, limit);
    forall m | m in Messages(s.log) ensures m.seqNo >= 1 {
      MissedNumbers(s, m.channel, m.seqNo - 1);
      RangeSorted(s.log, m.channel, m.seqNo, None);
      assert m in Range(s.log, m.channel, m.seqNo, None);
    }
  }

  /** So after the file was lost the promised replay from the beginning happens only for an empty log. */
  lemma LostFileReplaysIff(s: State, file: CursorFile, limit: int)
    requires Dense(s) && IdsAscending(s.log) && limit >= 2 && !file.Stored?
    ensures HandledAll(s, [], Cursors(file), limit) == []
    ensures HandlesEverything(s, [], Cursors(file), limit) <==> s.log == []
  {
    RecoversEverythingIff(s, [], Cursors(file), limit);
    if s.log != [] {
      assert Messages(s.log)[0] in Messages(s.log);
    }
  }

  /** A corrupt file, a log of one message, and a recovery that does not handle it. */
  lemma CorruptFileLosesMessage() returns (s: State, m: Message)
    ensures Dense(s) && IdsAscending(s.log) && m in Messages(s.log) && m.seqNo == 1
    ensures m !in HandledAll(s, [], Cursors(Corrupt), 100)
  {
    InitiallyDense();
    AppendKeepsDense(INITIAL, "a", "s", "", None, 0.0, None);
    s := Append(INITIAL, "a", "s", "", None, 0.0, None);
    m := s.log[0].msg;
    assert Messages(s.log)[0] == m;
  }

  lemma NothingHandled(s: State, channels: seq<string>, cursors: map<string, int>, limit: int)
    requires limit >= 2
    ensures HandledAll(s, channels[..0], cursors, limit) == []
  {
  }

  lemma HandledAllNext(s: State, channels: seq<string>, cursors: map<string, int>, limit: int, k: nat)
    requires limit >= 2 && k < |channels| && forall c :: c in channels ==> c in cursors
    ensures HandledAll(s, channels[..k + 1], cursors, limit)
         == HandledAll(s, channels[..k], cursors, limit) + Handled(Missed(s, channels[k], cursors[channels[k]]), limit)
    ensures forall c :: c in channels[..k + 1] <==> c in channels[..k] || c == channels[k]
  {
    assert channels[..k + 1][..k] == channels[..k] && channels[..k + 1] == channels[..k] + [channels[k]];
  }

  /** The channels are recovered one after the other, each as its own backlog is replayed. */
  lemma {:induction false} ChannelByChannel(s: State, channel: string, rest: seq<string>, cursors: map<string, int>, limit: int)
    requires limit >= 2 && channel in cursors && forall c :: c in rest ==> c in cursors
    ensures HandledAll(s, [], cursors, limit) == []
    ensures HandledAll(s, [channel] + rest, cursors, limit)
         == Handled(Missed(s, channel, cursors[channel]), limit) + HandledAll(s, rest, cursors, limit)
  {
    hide Handled, Missed;
    var whole := [channel] + rest;
    if rest == [] {
      assert whole[..0] == [] && whole[0] == channel && [] + Handled(Missed(s, channel, cursors[channel]), limit)
        == Handled(Missed(s, channel, cursors[channel]), limit) + [];
    } else {
      var n := |rest| - 1;
      ChannelByChannel(s, channel, rest[..n], cursors, limit);
      assert whole[..n + 1] == [channel] + rest[..n] && whole[n + 1] == rest[n];
    }
  }

  /** A page of a longer backlog, and a backlog that fits in one page. */
  lemma PageOrAll(rest: seq<Message>, limit: int)
    requires limit >= 2
    ensures |rest| > limit ==> SliceTo(rest, limit) == rest[..limit]
    ensures |rest| > limit ==> Handled(rest, limit) == rest[..limit] + Handled(rest[limit - 1..], limit)
    ensures |rest| <= limit ==> SliceTo(rest, limit) == rest && Handled(rest, limit) == rest
  {
  }

  ghost predicate Numbered(ms: seq<Message>, n: int) {
    exists m :: m in ms && m.seqNo == n
  }

  /** In a dense channel the messages missed since `cursor` are those numbered above it. */
  lemma MissedNumbers(s: State, channel: string, cursor: int)
    requires Dense(s) && IdsAscending(s.log)
    ensures forall m :: m in Missed(s, channel, cursor) ==> cursor < m.seqNo && 1 <= m.seqNo <= LastSeq(s.channelSeq, channel)
    ensures forall n :: 1 <= n <= LastSeq(s.channelSeq, channel) && n > cursor ==> Numbered(Missed(s, channel, cursor), n)
  {
    hide Sort, Filter;
    var last := LastSeq(s.channelSeq, channel);
    var line := StoreDrain.OnChannel(Messages(s.log), channel);
    RangeSorted(s.log, channel, cursor + 1, None);
    assert ChannelDense(Messages(s.log), last, channel);
    forall m | m in Missed(s, channel, cursor) ensures cursor < m.seqNo && 1 <= m.seqNo <= last {
      assert m in line;
      var k :| 0 <= k < |line| && line[k] == m;
    }
    forall n | 1 <= n <= last && n > cursor ensures Numbered(Missed(s, channel, cursor), n) {
      assert line[n - 1] in line;
    }
  }

  /** Recovery leaves the cursor at the channel's last number, or where it was if that is further. */
  lemma CursorReachesEnd(s: State, channel: string, cursor: int)
    requires Dense(s) && IdsAscending(s.log)
    ensures var last := LastSeq(s.channelSeq, channel);
      NewCursor(s, channel, cursor) == if cursor >= last || last == 0 then cursor else last
  {
    hide Missed;
    var backlog, last := Missed(s, channel, cursor), LastSeq(s.channelSeq, channel);
    MissedNumbers(s, channel, cursor);
    assert ChannelDense(Messages(s.log), last, channel);
    assert last > 0 && last > cursor ==> Numbered(backlog, last);
    if backlog != [] {
      var end := backlog[|backlog| - 1];
      assert end in backlog;
      var top :| top in backlog && top.seqNo == last;
      var k :| 0 <= k < |backlog| && backlog[k] == top;
      assert NumbersDistinct(backlog) by { MissedDistinct(s, channel, cursor); }
    }
  }

  lemma MissedDistinct(s: State, channel: string, cursor: int)
    requires Dense(s) && IdsAscending(s.log)
    ensures NumbersDistinct(Missed(s, channel, cursor))
  {
    DenseNumbers(s, channel, cursor + 1, None);
  }

  /** Where the loop stands after n requests: the number to ask for next, or None when it has ended. */
  function AskingAfter(log: Log, channel: string, since: int, limit: int, n: nat): Option<int>
    decreases n
  {
    if n == 0 then Some(since)
    else
      var (page, more) := Replay(log, channel, since, None, limit);
      var next := if page == [] then since else page[|page| - 1].seqNo;
      if more then AskingAfter(log, channel, next, limit, n - 1) else None
  }

  ghost predicate LoopEnds(log: Log, channel: string, since: int, limit: int) {
    exists n :: AskingAfter(log, channel, since, limit, n).None?
  }

  /** One request of a channel with distinct numbers. */
  lemma OneRequest(log: Log, channel: string, since: int, limit: int, n: nat)
    requires IdsAscending(log) && limit >= 1 && NumbersDistinct(Range(log, channel, since, None)) && n >= 1
    ensures var whole := Range(log, channel, since, None);
      if |whole| <= limit then AskingAfter(log, channel, since, limit, n) == None
      else
        var next := whole[limit - 1].seqNo;
        && AskingAfter(log, channel, since, limit, n) == AskingAfter(log, channel, next, limit, n - 1)
        && Range(log, channel, next, None) == whole[limit - 1..] && NumbersDistinct(Range(log, channel, next, None))
  {
    hide Range;
    if |Range(log, channel, since, None)| > limit {
      RangeFromLast(log, channel, since, limit - 1);
    }
  }

  lemma NoRequestYet(log: Log, channel: string, since: int, limit: int)
    ensures AskingAfter(log, channel, since, limit, 0) == Some(since)
  {
  }

  lemma {:induction false} LoopShrinks(log: Log, channel: string, since: int, limit: int)
    requires IdsAscending(log) && limit >= 2 && NumbersDistinct(Range(log, channel, since, None))
    ensures LoopEnds(log, channel, since, limit)
    decreases |Range(log, channel, since, None)|
  {
    hide Range, AskingAfter;
    var whole := Range(log, channel, since, None);
    OneRequest(log, channel, since, limit, 1);
    if |whole| <= limit {
      assert AskingAfter(log, channel, since, limit, 1).None?;
    } else {
      var next := whole[limit - 1].seqNo;
      LoopShrinks(log, channel, next, limit);
      var n: nat :| AskingAfter(log, channel, next, limit, n).None?;
      OneRequest(log, channel, since, limit, n + 1);
      assert AskingAfter(log, channel, since, limit, n + 1).None?;
    }
  }

  lemma {:induction false} LoopStuck(log: Log, channel: string, since: int, n: nat)
    requires IdsAscending(log) && NumbersDistinct(Range(log, channel, since, None)) && |Range(log, channel, since, None)| >= 2
    ensures AskingAfter(log, channel, since, 1, n).Some?
    decreases n
  {
    hide Range, AskingAfter, NumbersDistinct;
    if n == 0 {
      NoRequestYet(log, channel, since, 1);
    } else {
      var whole := Range(log, channel, since, None);
      OneRequest(log, channel, since, 1, n);
      assert whole[0..] == whole;
      LoopStuck(log, channel, whole[0].seqNo, n - 1);
    }
  }

  /** Below a limit of one a loop that finds more than the limit goes on for ever: the page of limit zero is
      empty, and any range is longer than a negative limit. */
  lemma {:induction false} LoopIdle(log: Log, channel: string, since: int, limit: int, n: nat)
    requires limit < 1 && |Range(log, channel, since, None)| > limit
    ensures AskingAfter(log, channel, since, limit, n).Some?
    decreases n
  {
    hide Range;
    if n > 0 {
      var (page, more) := Replay(log, channel, since, None, limit);
      LoopIdle(log, channel, if page == [] then since else page[|page| - 1].seqNo, limit, n - 1);
    }
  }

  /** The loop ends exactly when its page limit is at least two, or not below the number of missed messages.
      Otherwise it goes on for ever: with limit one every request returns the first message again. */
  lemma LoopEndsIff(s: State, channel: string, cursor: int, limit: int)
    requires Dense(s) && IdsAscending(s.log)
    ensures LoopEnds(s.log, channel, cursor + 1, limit) <==> limit >= 2 || |Missed(s, channel, cursor)| <= limit
  {
    hide Range, AskingAfter;
    var since := cursor + 1;
    DenseNumbers(s, channel, since, None);
    if limit >= 2 {
      LoopShrinks(s.log, channel, since, limit);
    } else if |Missed(s, channel, cursor)| <= limit {
      OnlyRequest(s.log, channel, since, limit);
    } else if n: nat :| AskingAfter(s.log, channel, since, limit, n).None? {
      if limit == 1 {
        LoopStuck(s.log, channel, since, n);
      } else {
        LoopIdle(s.log, channel, since, limit, n);
      }
    }
  }

  lemma OnlyRequest(log: Log, channel: string, since: int, limit: int)
    requires |Range(log, channel, since, None)| <= limit
    ensures LoopEnds(log, channel, since, limit)
  {
    hide Range;
    assert AskingAfter(log, channel, since, limit, 1).None?;
  }
}
