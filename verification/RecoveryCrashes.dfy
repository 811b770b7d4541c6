/** Recovery with crashes: one channel's replay loop as small steps, any of which may be followed by a
    crash and a restart from the persisted cursor. */
module RecoveryCrashes {
  import opened Options
  import opened Sorting
  import opened StoreModel
  import opened StoreRuns
  import opened StoreReplay
  import StoreDrain
  import Recovery

  /** Where the process stands: not running; about to request a page; with messages of a page to handle;
      having handled a message but not yet written its number; or done. */
  datatype Process =
    | Down
    | Asking(since: int)
    | Working(since: int, queue: seq<Message>, more: bool)
    | Persisting(message: Message, queue: seq<Message>, more: bool)
    | Finished

  /** The cursor survives crashes; `handled` is the history of what the handler has seen. */
  datatype World = World(cursor: int, process: Process, handled: seq<Message>)

  datatype Move = Restart | Ask | Handle | Persist | Turn | Crash

  predicate Enabled(w: World, move: Move) {
    match move
    case Restart => w.process.Down?
    case Ask => w.process.Asking?
    case Handle => w.process.Working? && w.process.queue != []
    case Persist => w.process.Persisting?
    case Turn => w.process.Working? && w.process.queue == []
    case Crash => true
  }

  function Next(s: State, channel: string, limit: int, w: World, move: Move): World
    requires Enabled(w, move)
  {
    match move
    case Restart => w.(process := Asking(w.cursor + 1))
    case Ask =>
      var (page, more) := Replay(s.log, channel, w.process.since, None, limit);
      w.(process := Working(w.process.since, page, more))
    case Handle =>
      w.(process := Persisting(w.process.queue[0], w.process.queue[1..], w.process.more),
         handled := w.handled + [w.process.queue[0]])
    case Persist =>
      var n := w.process.message.seqNo;
      w.(cursor := n, process := Working(n, w.process.queue, w.process.more))
    case Turn => w.(process := if w.process.more then Asking(w.process.since) else Finished)
    case Crash => w.(process := Down)
  }

  ghost predicate Run(s: State, channel: string, limit: int, cursor: int, moves: seq<Move>, worlds: seq<World>) {
    && |worlds| == |moves| + 1
    && worlds[0] == World(cursor, Down, [])
    && forall i :: 0 <= i < |moves| ==>
         Enabled(worlds[i], moves[i]) && worlds[i + 1] == Next(s, channel, limit, worlds[i], moves[i])
  }

  // ---------------------------------------------------------------- pages of a dense channel

  function Line(s: State, channel: string): seq<Message> {
    StoreDrain.OnChannel(Messages(s.log), channel)
  }

  function Max(a: int, b: int): int {
    if a >= b then a else b
  }

  function Min(a: int, b: int): int {
    if a <= b then a else b
  }

  /** The index in the channel of the first message numbered `since` or more. */
  function IndexOf(s: State, channel: string, since: int): nat {
    Min(Max(since, 1) - 1, |Line(s, channel)|)
  }

  /** A replay range without upper bound is a tail of the channel. */
  lemma RangeIsTail(s: State, channel: string, since: int)
    requires Dense(s) && IdsAscending(s.log)
    ensures Range(s.log, channel, since, None) == Line(s, channel)[IndexOf(s, channel, since)..]
    ensures forall k :: 0 <= k < |Line(s, channel)| ==> Line(s, channel)[k].seqNo == k + 1
  {
    hide Sort, Filter, Range;
    var line, whole, k := Line(s, channel), Range(s.log, channel, since, None), IndexOf(s, channel, since);
    var tail := line[k..];
    assert ChannelDense(Messages(s.log), LastSeq(s.channelSeq, channel), channel);
    RangeSorted(s.log, channel, since, None);
    NumberedTail(line, since, k);
    DistinctSameMembers(whole, tail);
    SortedUnique(SeqBefore, whole, tail);
  }

  lemma TailInOrder(line: seq<Message>, k: nat)
    requires k <= |line| && forall i :: 0 <= i < |line| ==> line[i].seqNo == i + 1
    ensures Distinct(line[k..]) && SortedBy(SeqBefore, line[k..])
  {
    var tail := line[k..];
    assert forall i :: 0 <= i < |tail| ==> tail[i].seqNo == k + i + 1;
  }

  lemma NumberedTail(line: seq<Message>, since: int, k: nat)
    requires forall i :: 0 <= i < |line| ==> line[i].seqNo == i + 1
    requires k == Min(Max(since, 1) - 1, |line|)
    ensures Distinct(line[k..]) && SortedBy(SeqBefore, line[k..])
    ensures forall m :: m in line[k..] <==> m in line && m.seqNo >= since
  {
    hide SortedBy, Distinct;
    TailInOrder(line, k);
    forall m ensures m in line[k..] <==> m in line && m.seqNo >= since {
      if m in line[k..] {
        TailNumbered(line, since, k, m);
      } else if m in line && m.seqNo >= since {
        NumberedInTail(line, since, k, m);
      }
    }
  }

  lemma TailNumbered(line: seq<Message>, since: int, k: nat, m: Message)
    requires forall i :: 0 <= i < |line| ==> line[i].seqNo == i + 1
    requires k == Min(Max(since, 1) - 1, |line|) && m in line[k..]
    ensures m in line && m.seqNo >= since
  {
    var i :| k <= i < |line| && line[i] == m;
  }

  lemma NumberedInTail(line: seq<Message>, since: int, k: nat, m: Message)
    requires forall i :: 0 <= i < |line| ==> line[i].seqNo == i + 1
    requires k == Min(Max(since, 1) - 1, |line|) && m in line && m.seqNo >= since
    ensures m in line[k..]
  {
    var i :| 0 <= i < |line| && line[i] == m;
    assert line[k..][i - k] == m;
  }

  // ---------------------------------------------------------------- the invariant

  /** `queue` continues the channel from number `next`; without further pages it reaches the end. */
  ghost predicate Continues(s: State, channel: string, queue: seq<Message>, next: int, more: bool) {
    var line := Line(s, channel);
    && (queue != [] ==> 1 <= next && next - 1 + |queue| <= |line| && queue == line[next - 1..next - 1 + |queue|])
    && (!more ==> next - 1 + |queue| >= |line|)
  }

  /** Everything of the backlog numbered up to `cursor` has been handled. */
  ghost predicate NothingSkipped(s: State, channel: string, start: int, cursor: int, handled: seq<Message>) {
    forall m :: m in Line(s, channel) && start < m.seqNo <= cursor ==> m in handled
  }

  ghost predicate Safe(s: State, channel: string, start: int, w: World) {
    && start <= w.cursor
    && NothingSkipped(s, channel, start, w.cursor, w.handled)
    && match w.process
       case Down => true
       case Asking(since) => since == w.cursor || since == w.cursor + 1
       case Working(since, queue, more) =>
         && (since == w.cursor || since == w.cursor + 1)
         && (exists next :: NextNumber(w.cursor, next) && Continues(s, channel, queue, next, more))
       case Persisting(message, queue, more) =>
         && message in w.handled && NextNumber(w.cursor, message.seqNo) && At(s, channel, message)
         && Continues(s, channel, queue, message.seqNo + 1, more)
       case Finished => Max(w.cursor, 0) >= |Line(s, channel)|
  }

  /** The message stands in the channel at the place its number says. */
  ghost predicate At(s: State, channel: string, m: Message) {
    1 <= m.seqNo <= |Line(s, channel)| && Line(s, channel)[m.seqNo - 1] == m
  }

  /** The number to handle next: the cursor's own again, or the first one after it. */
  ghost predicate NextNumber(cursor: int, next: int) {
    next == cursor || next == Max(cursor, 0) + 1
  }

  lemma AskSafe(s: State, channel: string, limit: int, start: int, w: World)
    requires Dense(s) && IdsAscending(s.log) && limit >= 1 && Safe(s, channel, start, w) && w.process.Asking?
    ensures Safe(s, channel, start, Next(s, channel, limit, w, Ask))
  {
    hide Replay, Line, Dense, NothingSkipped, IdsAscending, Continues;
    var since := w.process.since;
    PageContinues(s, channel, limit, since);
    assert NextNumber(w.cursor, Max(since, 1));
  }

  /** A page continues the channel from the number asked for, and is full if more is announced. */
  lemma PageContinues(s: State, channel: string, limit: int, since: int)
    requires Dense(s) && IdsAscending(s.log) && limit >= 1
    ensures var (page, more) := Replay(s.log, channel, since, None, limit);
      Continues(s, channel, page, Max(since, 1), more) && (more ==> |page| == limit)
  {
    hide Range, Line, Dense, IdsAscending;
    RangeIsTail(s, channel, since);
    SliceOfTail(Line(s, channel), IndexOf(s, channel, since), limit);
  }

  lemma SliceOfTail(line: seq<Message>, k: nat, limit: int)
    requires k <= |line| && limit >= 1
    ensures SliceTo(line[k..], limit) == line[k..k + |SliceTo(line[k..], limit)|]
  {
  }

  lemma HandleSafe(s: State, channel: string, limit: int, start: int, w: World)
    requires Dense(s) && IdsAscending(s.log) && Safe(s, channel, start, w) && w.process.Working? && w.process.queue != []
    ensures Safe(s, channel, start, Next(s, channel, limit, w, Handle))
  {
    hide Range, Line, Dense, Continues, At, NothingSkipped, IdsAscending;
    var queue, more := w.process.queue, w.process.more;
    var next :| NextNumber(w.cursor, next) && Continues(s, channel, queue, next, more);
    RangeIsTail(s, channel, 0);
    TakeOne(s, channel, queue, next, more);
    MoreHandled(s, channel, start, w.cursor, w.handled, queue[0]);
  }

  lemma MoreHandled(s: State, channel: string, start: int, cursor: int, handled: seq<Message>, m: Message)
    requires NothingSkipped(s, channel, start, cursor, handled)
    ensures NothingSkipped(s, channel, start, cursor, handled + [m]) && m in handled + [m]
  {
    hide Line;
    assert (handled + [m])[|handled|] == m;
    assert forall x :: x in handled ==> x in handled + [m];
  }

  lemma TakeOne(s: State, channel: string, queue: seq<Message>, next: int, more: bool)
    requires queue != [] && Continues(s, channel, queue, next, more)
    requires forall k :: 0 <= k < |Line(s, channel)| ==> Line(s, channel)[k].seqNo == k + 1
    ensures queue[0].seqNo == next && At(s, channel, queue[0]) && Continues(s, channel, queue[1..], next + 1, more)
  {
    var line := Line(s, channel);
    hide Line;
    assert queue[0] == line[next - 1];
    assert queue[1..] == line[next..next + |queue[1..]|];
  }

  lemma PersistSafe(s: State, channel: string, limit: int, start: int, w: World)
    requires Dense(s) && IdsAscending(s.log) && Safe(s, channel, start, w) && w.process.Persisting?
    ensures Safe(s, channel, start, Next(s, channel, limit, w, Persist))
    ensures Next(s, channel, limit, w, Persist).cursor >= w.cursor
  {
    hide Range, Line, Dense, Continues, NothingSkipped, IdsAscending, At;
    RangeIsTail(s, channel, 0);
    var m := w.process.message;
    AdvanceCursor(s, channel, start, w.cursor, w.handled, m);
    assert NextNumber(m.seqNo, m.seqNo + 1);
  }

  lemma AdvanceCursor(s: State, channel: string, start: int, cursor: int, handled: seq<Message>, m: Message)
    requires forall k :: 0 <= k < |Line(s, channel)| ==> Line(s, channel)[k].seqNo == k + 1
    requires NothingSkipped(s, channel, start, cursor, handled) && start <= cursor
    requires m in handled && At(s, channel, m) && NextNumber(cursor, m.seqNo)
    ensures NothingSkipped(s, channel, start, m.seqNo, handled) && m.seqNo >= 1
  {
    var line := Line(s, channel);
    hide Line;
    forall x | x in line && start < x.seqNo <= m.seqNo ensures x in handled {
      var i :| 0 <= i < |line| && line[i] == x;
    }
  }

  lemma StepSafe(s: State, channel: string, limit: int, start: int, w: World, move: Move)
    requires Dense(s) && IdsAscending(s.log) && limit >= 1 && Safe(s, channel, start, w) && Enabled(w, move)
    ensures Safe(s, channel, start, Next(s, channel, limit, w, move))
    ensures w.cursor <= Next(s, channel, limit, w, move).cursor
  {
    match move
    case Ask => AskSafe(s, channel, limit, start, w);
    case Handle => HandleSafe(s, channel, limit, start, w);
    case Persist => PersistSafe(s, channel, limit, start, w);
    case _ =>
      hide Line, Dense, Range;
  }

  // ---------------------------------------------------------------- over whole runs

  /** At every moment of every run, with crashes anywhere, no message numbered up to the persisted cursor
      (and above the starting one) has gone unhandled. */
  lemma {:induction false} NothingSkippedEver(s: State, channel: string, limit: int, start: int, moves: seq<Move>, worlds: seq<World>)
    requires Dense(s) && IdsAscending(s.log) && limit >= 1 && Run(s, channel, limit, start, moves, worlds)
    ensures Safe(s, channel, start, worlds[|moves|])
  {
    if moves != [] {
      var n := |moves| - 1;
      assert Run(s, channel, limit, start, moves[..n], worlds[..n + 1]);
      NothingSkippedEver(s, channel, limit, start, moves[..n], worlds[..n + 1]);
      StepSafe(s, channel, limit, start, worlds[n], moves[n]);
    } else {
      hide Line;
    }
  }

  /** The persisted cursor never goes back. */
  lemma {:induction false} CursorNeverDecreases(s: State, channel: string, limit: int, start: int,
                                                moves: seq<Move>, worlds: seq<World>, i: nat)
    requires Dense(s) && IdsAscending(s.log) && limit >= 1 && Run(s, channel, limit, start, moves, worlds) && i <= |moves|
    ensures worlds[i].cursor <= worlds[|moves|].cursor
  {
    if i < |moves| {
      var n := |moves| - 1;
      assert Run(s, channel, limit, start, moves[..n], worlds[..n + 1]);
      CursorNeverDecreases(s, channel, limit, start, moves[..n], worlds[..n + 1], i);
      NothingSkippedEver(s, channel, limit, start, moves[..n], worlds[..n + 1]);
      StepSafe(s, channel, limit, start, worlds[n], moves[n]);
    }
  }

  /** When recovery finishes, however often it crashed before, everything missed has been handled. */
  lemma FinishedMeansAllHandled(s: State, channel: string, limit: int, start: int, moves: seq<Move>, worlds: seq<World>)
    requires Dense(s) && IdsAscending(s.log) && limit >= 1 && Run(s, channel, limit, start, moves, worlds)
    requires worlds[|moves|].process.Finished?
    ensures forall m :: m in Recovery.Missed(s, channel, start) ==> m in worlds[|moves|].handled
  {
    hide Range, Line, NothingSkipped;
    NothingSkippedEver(s, channel, limit, start, moves, worlds);
    AllSkippedAreHandled(s, channel, start, worlds[|moves|].cursor, worlds[|moves|].handled);
  }

  /** A cursor at the end of the channel, with nothing skipped below it, leaves nothing missed. */
  lemma AllSkippedAreHandled(s: State, channel: string, start: int, cursor: int, handled: seq<Message>)
    requires Dense(s) && IdsAscending(s.log)
    requires NothingSkipped(s, channel, start, cursor, handled) && Max(cursor, 0) >= |Line(s, channel)|
    ensures forall m :: m in Recovery.Missed(s, channel, start) ==> m in handled
  {
    RangeIsTail(s, channel, start + 1);
    var line, k := Line(s, channel), IndexOf(s, channel, start + 1);
    hide Range, Line;
    forall m | m in line[k..] ensures m in handled {
      TailNumbered(line, start + 1, k, m);
      var i :| 0 <= i < |line| && line[i] == m;
    }
  }

  // ---------------------------------------------------------------- how often a message is handled

  function Crashes(moves: seq<Move>): nat {
    multiset(moves)[Crash]
  }

  /** The message carries the persisted number and is still to be fetched or handled again. */
  ghost predicate ComesAgain(w: World, m: Message) {
    && m.seqNo == w.cursor
    && match w.process
       case Asking(since) => since <= m.seqNo
       case Working(_, queue, more) => m in queue || (queue == [] && more)
       case _ => false
  }

  /** A page that starts with the persisted number and announces more holds another message. */
  ghost predicate Advances(w: World) {
    match w.process
    case Working(_, queue, more) => queue != [] && more && queue[0].seqNo == w.cursor ==> |queue| >= 2
    case Persisting(message, queue, more) => more && message.seqNo == w.cursor ==> queue != []
    case _ => true
  }

  /** How often a crash came between handling the message and persisting its number. */
  function Wasted(w: World, m: Message): int {
    var times: int := multiset(w.handled)[m];
    if w.process.Persisting? && w.process.message == m then times - 1 else times
  }

  /** The message is the next one; on its page another one follows unless it is the last of the channel. */
  ghost predicate Heads(w: World, m: Message) {
    && Max(w.cursor, 0) + 1 == m.seqNo
    && match w.process
       case Asking(since) => since == w.cursor + 1
       case Working(_, queue, more) => (queue != [] ==> queue[0] == m) && (more ==> |queue| >= 2)
       case Persisting(message, queue, more) => message == m && (more ==> queue != [])
       case _ => true
  }

  /** Before its number is persisted a message is handled at most once for every crash, and after a crash it
      is the first of its page, so that it does not end one and is not fetched again. */
  ghost predicate Bounded(s: State, channel: string, w: World, crashes: nat, m: Message) {
    var times := multiset(w.handled)[m];
    if !At(s, channel, m) then times == 0
    else if w.cursor < m.seqNo then Wasted(w, m) <= crashes && (Wasted(w, m) >= 1 ==> Heads(w, m))
    else if ComesAgain(w, m) then times <= 1
    else times <= 2 || times <= crashes + 1
  }

  /** Nothing before the place `next` of the channel is in a queue that continues from there. */
  lemma InQueue(s: State, channel: string, queue: seq<Message>, next: int, more: bool, m: Message)
    requires Continues(s, channel, queue, next, more) && m in queue
    requires forall k :: 0 <= k < |Line(s, channel)| ==> Line(s, channel)[k].seqNo == k + 1
    ensures m.seqNo >= next
  {
    hide Line;
    var i :| 0 <= i < |queue| && queue[i] == m;
  }

  lemma AskBounded(s: State, channel: string, limit: int, w: World, crashes: nat, m: Message)
    requires Dense(s) && IdsAscending(s.log) && limit >= 2 && w.process.Asking? && Bounded(s, channel, w, crashes, m)
    requires w.process.since == w.cursor || w.process.since == w.cursor + 1
    ensures Bounded(s, channel, Next(s, channel, limit, w, Ask), crashes, m)
    ensures Advances(Next(s, channel, limit, w, Ask))
  {
    hide Line, Dense, IdsAscending, At, Replay, Continues;
    var since := w.process.since;
    var (page, more) := Replay(s.log, channel, since, None, limit);
    PageContinues(s, channel, limit, since);
    RangeIsTail(s, channel, 0);
    if m in page {
      InQueue(s, channel, page, Max(since, 1), more, m);
    }
    if page != [] {
      assert page[0] in page;
      TakeOne(s, channel, page, Max(since, 1), more);
      if At(s, channel, m) && m.seqNo == Max(since, 1) {
        SameNumber(s, channel, m, page[0]);
      }
    }
  }

  lemma HandleBounded(s: State, channel: string, limit: int, start: int, w: World, crashes: nat, m: Message)
    requires Dense(s) && IdsAscending(s.log) && Safe(s, channel, start, w) && Advances(w) && Bounded(s, channel, w, crashes, m)
    requires w.process.Working? && w.process.queue != []
    ensures Bounded(s, channel, Next(s, channel, limit, w, Handle), crashes, m)
    ensures Advances(Next(s, channel, limit, w, Handle))
  {
    hide Range, Line, Dense, Continues, At, NothingSkipped, IdsAscending;
    var queue, more := w.process.queue, w.process.more;
    var next :| NextNumber(w.cursor, next) && Continues(s, channel, queue, next, more);
    RangeIsTail(s, channel, 0);
    TakeOne(s, channel, queue, next, more);
    assert queue[0] in queue;
    assert multiset(w.handled + [queue[0]])[m] == multiset(w.handled)[m] + if queue[0] == m then 1 else 0;
  }

  lemma SameNumber(s: State, channel: string, m: Message, n: Message)
    requires At(s, channel, m) && At(s, channel, n) && m.seqNo == n.seqNo
    ensures m == n
  {
  }

  lemma PersistBounded(s: State, channel: string, limit: int, start: int, w: World, crashes: nat, m: Message)
    requires Dense(s) && IdsAscending(s.log) && Safe(s, channel, start, w) && Advances(w) && Bounded(s, channel, w, crashes, m)
    requires w.process.Persisting?
    ensures Bounded(s, channel, Next(s, channel, limit, w, Persist), crashes, m)
    ensures Advances(Next(s, channel, limit, w, Persist))
  {
    hide Range, Line, Dense, Continues, At, NothingSkipped, IdsAscending;
    RangeIsTail(s, channel, 0);
    var message, queue, more := w.process.message, w.process.queue, w.process.more;
    if At(s, channel, m) && m.seqNo == message.seqNo {
      SameNumber(s, channel, m, message);
    }
    if m in queue {
      InQueue(s, channel, queue, message.seqNo + 1, more, m);
    }
    if queue != [] {
      InQueue(s, channel, queue, message.seqNo + 1, more, queue[0]);
    }
  }

  lemma StepBounded(s: State, channel: string, limit: int, start: int, w: World, move: Move, crashes: nat, m: Message)
    requires Dense(s) && IdsAscending(s.log) && limit >= 2 && Safe(s, channel, start, w) && Enabled(w, move)
    requires Advances(w) && Bounded(s, channel, w, crashes, m)
    ensures Bounded(s, channel, Next(s, channel, limit, w, move), crashes + if move == Crash then 1 else 0, m)
    ensures Advances(Next(s, channel, limit, w, move))
  {
    hide Range, Line, Dense, Continues, At, NothingSkipped, IdsAscending;
    match move
    case Ask => AskBounded(s, channel, limit, w, crashes, m);
    case Handle => HandleBounded(s, channel, limit, start, w, crashes, m);
    case Persist => PersistBounded(s, channel, limit, start, w, crashes, m);
    case _ =>
  }

  lemma {:induction false} RunBounded(s: State, channel: string, limit: int, start: int, moves: seq<Move>, worlds: seq<World>, m: Message)
    requires Dense(s) && IdsAscending(s.log) && limit >= 2 && Run(s, channel, limit, start, moves, worlds)
    ensures Bounded(s, channel, worlds[|moves|], Crashes(moves), m) && Advances(worlds[|moves|])
  {
    hide Line, Bounded, Dense, IdsAscending, Advances, Safe, Next, Enabled;
    if moves == [] {
      NothingHandledYet(s, channel, start, m);
    } else {
      var n := |moves| - 1;
      CrashesNext(moves);
      assert Run(s, channel, limit, start, moves[..n], worlds[..n + 1]);
      RunBounded(s, channel, limit, start, moves[..n], worlds[..n + 1], m);
      NothingSkippedEver(s, channel, limit, start, moves[..n], worlds[..n + 1]);
      StepBounded(s, channel, limit, start, worlds[n], moves[n], Crashes(moves[..n]), m);
    }
  }

  lemma CrashesNext(moves: seq<Move>)
    requires moves != []
    ensures var n := |moves| - 1; Crashes(moves) == Crashes(moves[..n]) + if moves[n] == Crash then 1 else 0
  {
    assert moves == moves[..|moves| - 1] + [moves[|moves| - 1]];
  }

  lemma NothingHandledYet(s: State, channel: string, start: int, m: Message)
    ensures Bounded(s, channel, World(start, Down, []), 0, m) && Crashes([]) == 0 && Advances(World(start, Down, []))
  {
    hide Line;
  }

  /** In a run with n crashes no message is handled more than n + 1 times, or twice if there is no crash. */
  lemma HandledAtMost(s: State, channel: string, limit: int, start: int, moves: seq<Move>, worlds: seq<World>, m: Message)
    requires Dense(s) && IdsAscending(s.log) && limit >= 2 && Run(s, channel, limit, start, moves, worlds)
    ensures multiset(worlds[|moves|].handled)[m] <= Max(2, Crashes(moves) + 1)
    ensures m !in Line(s, channel) ==> multiset(worlds[|moves|].handled)[m] == 0
  {
    hide Line;
    RunBounded(s, channel, limit, start, moves, worlds, m);
  }

  /** The bound is reached: a channel's first message can be handled once more than there are crashes. */
  lemma {:induction false} BoundReached(s: State, channel: string, limit: int, n: nat) returns (moves: seq<Move>, worlds: seq<World>)
    requires Dense(s) && IdsAscending(s.log) && limit >= 2 && Line(s, channel) != []
    ensures Run(s, channel, limit, 0, moves, worlds) && Crashes(moves) == n
    ensures var w := worlds[|moves|]; w.process.Persisting? && w.cursor == 0
    ensures multiset(worlds[|moves|].handled)[Line(s, channel)[0]] == n + 1
  {
    hide Line, Range, Dense, IdsAscending;
    if n == 0 {
      moves, worlds := [], [World(0, Down, [])];
    } else {
      moves, worlds := BoundReached(s, channel, limit, n - 1);
      moves, worlds := Extended(s, channel, limit, moves, worlds, Crash);
    }
    moves, worlds := Extended(s, channel, limit, moves, worlds, Restart);
    moves, worlds := Extended(s, channel, limit, moves, worlds, Ask);
    RangeIsTail(s, channel, 1);
    moves, worlds := Extended(s, channel, limit, moves, worlds, Handle);
  }

  lemma Extended(s: State, channel: string, limit: int, moves: seq<Move>, worlds: seq<World>, move: Move)
    returns (moves': seq<Move>, worlds': seq<World>)
    requires Run(s, channel, limit, 0, moves, worlds) && Enabled(worlds[|moves|], move)
    ensures Run(s, channel, limit, 0, moves', worlds') && |moves'| == |moves| + 1
    ensures Crashes(moves') == Crashes(moves) + if move == Crash then 1 else 0
    ensures worlds'[|moves'|] == Next(s, channel, limit, worlds[|moves|], move)
  {
    hide Next, Enabled;
    moves', worlds' := moves + [move], worlds + [Next(s, channel, limit, worlds[|moves|], move)];
    assert moves'[..|moves|] == moves && moves'[|moves|] == move;
    CrashesNext(moves');
    hide Crashes;
    forall i | 0 <= i < |moves'|
      ensures Enabled(worlds'[i], moves'[i]) && worlds'[i + 1] == Next(s, channel, limit, worlds'[i], moves'[i])
    {
      assert worlds'[i] == worlds[i];
      if i < |moves| {
        assert moves'[i] == moves[i] && worlds'[i + 1] == worlds[i + 1];
      }
    }
  }

  // ---------------------------------------------------------------- runs without a crash

  function Last(since: int, queue: seq<Message>): int {
    if queue == [] then since else queue[|queue| - 1].seqNo
  }

  /** What the process has still to hand to the handler. */
  function Ahead(s: State, channel: string, limit: int, start: int, process: Process): seq<Message>
    requires limit >= 2
  {
    match process
    case Down => Recovery.Handled(Range(s.log, channel, start + 1, None), limit)
    case Asking(since) => Recovery.Handled(Range(s.log, channel, since, None), limit)
    case Working(since, queue, more) =>
      queue + if more then Recovery.Handled(Range(s.log, channel, Last(since, queue), None), limit) else []
    case Persisting(message, queue, more) =>
      queue + if more then Recovery.Handled(Range(s.log, channel, Last(message.seqNo, queue), None), limit) else []
    case Finished => []
  }

  /** A process that has not started, or has not crashed since it did. */
  ghost predicate Unbroken(start: int, w: World) {
    w.process.Down? ==> w.cursor == start && w.handled == []
  }

  /** A page, and what is ahead once it is fetched. */
  lemma PageAhead(s: State, channel: string, limit: int, since: int)
    requires Dense(s) && IdsAscending(s.log) && limit >= 2
    ensures var (page, more) := Replay(s.log, channel, since, None, limit);
      Recovery.Handled(Range(s.log, channel, since, None), limit)
        == page + if more then Recovery.Handled(Range(s.log, channel, Last(since, page), None), limit) else []
  {
    hide Range, Recovery.Handled;
    var whole := Range(s.log, channel, since, None);
    Recovery.PageOrAll(whole, limit);
    if |whole| > limit {
      DenseNumbers(s, channel, since, None);
      Recovery.RangeFromLast(s.log, channel, since, limit - 1);
      assert whole[..limit][limit - 1] == whole[limit - 1];
    }
  }

  /** Every move but a crash keeps what has been handled and what is ahead together the same. */
  lemma StepAhead(s: State, channel: string, limit: int, start: int, w: World, move: Move)
    requires Dense(s) && IdsAscending(s.log) && limit >= 2 && Enabled(w, move) && move != Crash && Unbroken(start, w)
    ensures var w' := Next(s, channel, limit, w, move);
      && Unbroken(start, w')
      && w.handled + Ahead(s, channel, limit, start, w.process) == w'.handled + Ahead(s, channel, limit, start, w'.process)
  {
    hide Range, Recovery.Handled, Replay, Dense;
    match move
    case Ask =>
      PageAhead(s, channel, limit, w.process.since);
    case Handle =>
      var queue := w.process.queue;
      assert queue == [queue[0]] + queue[1..];
      assert Last(w.process.since, queue) == Last(queue[0].seqNo, queue[1..]);
      var rest := if w.process.more then Recovery.Handled(Range(s.log, channel, Last(w.process.since, queue), None), limit) else [];
      assert w.handled + (queue + rest) == (w.handled + [queue[0]]) + (queue[1..] + rest);
    case _ =>
  }

  lemma {:induction false} HandledSoFar(s: State, channel: string, limit: int, start: int, moves: seq<Move>, worlds: seq<World>)
    requires Dense(s) && IdsAscending(s.log) && limit >= 2 && Run(s, channel, limit, start, moves, worlds) && Crash !in moves
    ensures var w := worlds[|moves|];
      && Unbroken(start, w)
      && w.handled + Ahead(s, channel, limit, start, w.process) == Recovery.Handled(Recovery.Missed(s, channel, start), limit)
  {
    hide Range, Recovery.Handled, Ahead;
    if moves == [] {
      AtStart(s, channel, limit, start);
    } else {
      var n := |moves| - 1;
      assert Run(s, channel, limit, start, moves[..n], worlds[..n + 1]);
      assert moves[n] in moves && forall m :: m in moves[..n] ==> m in moves;
      HandledSoFar(s, channel, limit, start, moves[..n], worlds[..n + 1]);
      StepAhead(s, channel, limit, start, worlds[n], moves[n]);
    }
  }

  lemma AtStart(s: State, channel: string, limit: int, start: int)
    requires limit >= 2
    ensures [] + Ahead(s, channel, limit, start, Down) == Recovery.Handled(Recovery.Missed(s, channel, start), limit)
  {
  }

  /** A run that finishes without a crash hands over exactly what the replay loop does. */
  lemma UnbrokenRunIsTheLoop(s: State, channel: string, limit: int, start: int, moves: seq<Move>, worlds: seq<World>)
    requires Dense(s) && IdsAscending(s.log) && limit >= 2 && Run(s, channel, limit, start, moves, worlds) && Crash !in moves
    requires worlds[|moves|].process.Finished?
    ensures worlds[|moves|].handled == Recovery.Handled(Recovery.Missed(s, channel, start), limit)
  {
    HandledSoFar(s, channel, limit, start, moves, worlds);
  }
}
