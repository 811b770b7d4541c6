/** The listener's buffer and the filtered drain of `channels__recv`. */
module Listener {
  import opened Options
  import opened Sorting
  import opened StoreModel

  function Reverse(s: seq<Message>): (r: seq<Message>)
    ensures multiset(r) == multiset(s) && |r| == |s|
  {
    if s == [] then []
    else
      assert s == [s[0]] + s[1..];
      Reverse(s[1..]) + [s[0]]
  }

  function On(channels: set<string>): Message -> bool {
    (m: Message) => m.channel in channels
  }

  function Off(channels: set<string>): Message -> bool {
    (m: Message) => m.channel !in channels
  }

  /** Splitting a list by channel loses and repeats nothing. */
  lemma {:induction false} SplitByChannel(s: seq<Message>, channels: set<string>)
    ensures multiset(Filter(On(channels), s)) + multiset(Filter(Off(channels), s)) == multiset(s)
    ensures |Filter(On(channels), s)| + |Filter(Off(channels), s)| == |s|
  {
    if s != [] {
      assert s == [s[0]] + s[1..];
      SplitByChannel(s[1..], channels);
    }
  }

  lemma SplitNext(channels: set<string>, s: seq<Message>, k: nat)
    requires k < |s|
    ensures Filter(On(channels), s[..k + 1]) ==
      if s[k].channel in channels then Filter(On(channels), s[..k]) + [s[k]] else Filter(On(channels), s[..k])
    ensures Filter(Off(channels), s[..k + 1]) ==
      if s[k].channel in channels then Filter(Off(channels), s[..k]) else Filter(Off(channels), s[..k]) + [s[k]]
  {
    hide Filter;
    FilterNext(On(channels), s, k);
    FilterNext(Off(channels), s, k);
  }

  /** How many messages a drain takes. */
  function Drained(queue: seq<Message>, max: int): nat {
    if max < 0 then 0 else if max < |queue| then max else |queue|
  }

  /** The queue and the messages returned by one `channels__recv`: the drained messages off the wanted
      channels go back to the end of the queue, last one first. */
  function Receive(queue: seq<Message>, channels: Option<seq<string>>, max: int): (seq<Message>, seq<Message>) {
    var n := Drained(queue, max);
    match channels
    case None => (queue[n..], queue[..n])
    case Some(names) =>
      var wanted := set c | c in names;
      (queue[n..] + Reverse(Filter(Off(wanted), queue[..n])), Filter(On(wanted), queue[..n]))
  }

  lemma ReceiveIs(queue: seq<Message>, channels: Option<seq<string>>, max: int)
    ensures var n := Drained(queue, max);
      n <= |queue| &&
      match channels
      case None => Receive(queue, channels, max) == (queue[n..], queue[..n])
      case Some(names) =>
        var wanted := set c | c in names;
        Receive(queue, channels, max) ==
          (queue[n..] + Reverse(Filter(Off(wanted), queue[..n])), Filter(On(wanted), queue[..n]))
  {
  }

  class MessageListener {
    var queue: seq<Message>
    /** Everything ever put, and everything ever returned. */
    ghost var put: multiset<Message>
    ghost var returned: multiset<Message>

    /** Nothing is lost and nothing is handed out twice. */
    ghost predicate Valid()
      reads this
    {
      put == returned + multiset(queue)
    }

    constructor ()
      ensures Valid() && queue == [] && put == multiset{}
    {
      queue, put, returned := [], multiset{}, multiset{};
    }

    /** What the watch loop does with each message. */
    method Put(message: Message)
      requires Valid()
      modifies this
      ensures Valid() && queue == old(queue) + [message]
      ensures put == old(put) + multiset{message} && returned == old(returned)
    {
      queue := queue + [message];
      put := put + multiset{message};
    }

    /** Pop up to `max` messages from the front. */
    method Drain(max: int) returns (messages: seq<Message>)
      modifies this`queue
      ensures messages == old(queue)[..Drained(old(queue), max)] && queue == old(queue)[Drained(old(queue), max)..]
    {
      messages := [];
      ghost var all := queue;
      while |messages| < max && queue != []
        invariant messages + queue == all
        invariant |messages| <= Drained(all, max)
        decreases |queue|
      {
        messages := messages + [queue[0]];
        queue := queue[1..];
      }
      assert |messages| == Drained(all, max);
      assert messages == (messages + queue)[..|messages|] && queue == (messages + queue)[|messages|..];
    }

    method ChannelsRecv(channels: Option<seq<string>>, max: int) returns (messages: seq<Message>)
      requires Valid()
      modifies this
      ensures Valid() && put == old(put) && returned == old(returned) + multiset(messages)
      ensures (queue, messages) == Receive(old(queue), channels, max)
    {
      hide Filter, Reverse, On, Off, Drained, Receive;
      ghost var before := queue;
      ReceiveIs(queue, channels, max);
      ReceiveConserves(queue, channels, max);
      messages := Drain(max);
      if channels.Some? {
        var kept, requeue := SplitChannels(messages, set c | c in channels.value);
        queue := queue + Reverse(requeue);
        messages := kept;
      }
      assert (queue, messages) == Receive(before, channels, max);
      returned := returned + multiset(messages);
    }
  }

  /** The messages of the wanted channels and the others, in one pass. */
  method SplitChannels(messages: seq<Message>, wanted: set<string>) returns (kept: seq<Message>, requeue: seq<Message>)
    ensures kept == Filter(On(wanted), messages) && requeue == Filter(Off(wanted), messages)
  {
    hide Filter, On, Off;
    kept, requeue := [], [];
    for i := 0 to |messages|
      invariant kept == Filter(On(wanted), messages[..i]) && requeue == Filter(Off(wanted), messages[..i])
    {
      SplitNext(wanted, messages, i);
      if messages[i].channel in wanted {
        kept := kept + [messages[i]];
      } else {
        requeue := requeue + [messages[i]];
      }
    }
    assert messages[..|messages|] == messages;
  }

  lemma ReceiveConserves(queue: seq<Message>, channels: Option<seq<string>>, max: int)
    ensures var (queue', messages) := Receive(queue, channels, max);
      multiset(messages) + multiset(queue') == multiset(queue)
  {
    var n := Drained(queue, max);
    assert queue == queue[..n] + queue[n..];
    if channels.Some? {
      SplitByChannel(queue[..n], set c | c in channels.value);
    }
  }

  // ---------------------------------------------------------------- over whole runs

  datatype Op = Put(message: Message) | Recv(channels: Option<seq<string>>, max: int)

  function Apply(queue: seq<Message>, op: Op): (seq<Message>, seq<Message>) {
    match op
    case Put(message) => (queue + [message], [])
    case Recv(channels, max) => Receive(queue, channels, max)
  }

  function QueueAfter(ops: seq<Op>): seq<Message> {
    if ops == [] then [] else Apply(QueueAfter(ops[..|ops| - 1]), ops[|ops| - 1]).0
  }

  function AllPut(ops: seq<Op>): multiset<Message> {
    if ops == [] then multiset{}
    else AllPut(ops[..|ops| - 1]) + if ops[|ops| - 1].Put? then multiset{ops[|ops| - 1].message} else multiset{}
  }

  function AllReturned(ops: seq<Op>): multiset<Message> {
    if ops == [] then multiset{}
    else AllReturned(ops[..|ops| - 1]) + multiset(Apply(QueueAfter(ops[..|ops| - 1]), ops[|ops| - 1]).1)
  }

  /** Over any mix of puts and filtered drains, what was put is what was returned plus what is queued. */
  lemma {:induction false} Conservation(ops: seq<Op>)
    ensures AllPut(ops) == AllReturned(ops) + multiset(QueueAfter(ops))
  {
    if ops != [] {
      var init, op := ops[..|ops| - 1], ops[|ops| - 1];
      Conservation(init);
      match op
      case Put(message) =>
      case Recv(channels, max) => ReceiveConserves(QueueAfter(init), channels, max);
    }
  }

  // ---------------------------------------------------------------- order

  /** The places below n whose message is off the channels. */
  function PlacesOff(queue: seq<Message>, channels: set<string>, n: nat): (r: seq<nat>)
    requires n <= |queue|
    ensures forall i :: 0 <= i < |r| ==> r[i] < n
    ensures forall i, j :: 0 <= i < j < |r| ==> r[i] < r[j]
  {
    if n == 0 then []
    else if queue[n - 1].channel in channels then PlacesOff(queue, channels, n - 1)
    else PlacesOff(queue, channels, n - 1) + [n - 1]
  }

  function Pick(queue: seq<Message>, places: seq<nat>): seq<Message>
    requires forall i :: 0 <= i < |places| ==> places[i] < |queue|
  {
    seq(|places|, i requires 0 <= i < |places| => queue[places[i]])
  }

  /** Where the messages queued after a filtered drain stood before it. */
  function PlacesAfter(queue: seq<Message>, channels: seq<string>, max: int): (r: seq<nat>)
    ensures forall i :: 0 <= i < |r| ==> r[i] < |queue|
  {
    var n := Drained(queue, max);
    var off := PlacesOff(queue, (set c | c in channels), n);
    seq(|queue| - n, i requires 0 <= i < |queue| - n => n + i) + seq(|off|, i requires 0 <= i < |off| => off[|off| - 1 - i])
  }

  lemma PlacesNext(queue: seq<Message>, channels: set<string>, n: nat)
    requires 0 < n <= |queue|
    ensures var off := PlacesOff(queue, channels, n - 1);
      Pick(queue, PlacesOff(queue, channels, n)) ==
        if queue[n - 1].channel in channels then Pick(queue, off) else Pick(queue, off) + [queue[n - 1]]
  {
    var off := PlacesOff(queue, channels, n - 1);
    assert Pick(queue, off + [n - 1]) == Pick(queue, off) + [queue[n - 1]];
  }

  lemma {:induction false} OffIsPicked(queue: seq<Message>, channels: set<string>, n: nat)
    requires n <= |queue|
    ensures Filter(Off(channels), queue[..n]) == Pick(queue, PlacesOff(queue, channels, n))
  {
    hide Filter, PlacesOff, Pick;
    if n == 0 {
      NothingOff(queue, channels);
    } else {
      OffIsPicked(queue, channels, n - 1);
      FilterNext(Off(channels), queue, n - 1);
      PlacesNext(queue, channels, n);
    }
  }

  lemma NothingOff(queue: seq<Message>, channels: set<string>)
    ensures Filter(Off(channels), queue[..0]) == [] == Pick(queue, PlacesOff(queue, channels, 0))
  {
  }

  lemma {:induction false} ReverseAt(s: seq<Message>, i: nat)
    requires i < |s|
    ensures Reverse(s)[i] == s[|s| - 1 - i]
  {
    if i < |s| - 1 {
      ReverseAt(s[1..], i);
    }
  }

  /** A filtered drain leaves in the queue the messages from these places. */
  lemma ReceiveByPlaces(queue: seq<Message>, channels: seq<string>, max: int)
    ensures Receive(queue, Some(channels), max).0 == Pick(queue, PlacesAfter(queue, channels, max))
  {
    hide Filter, Reverse, PlacesOff, Drained;
    ReceiveIs(queue, Some(channels), max);
    var n, wanted := Drained(queue, max), set c | c in channels;
    var off := PlacesOff(queue, wanted, n);
    OffIsPicked(queue, wanted, n);
    ReversePick(queue, off);
  }

  lemma ReversePick(queue: seq<Message>, places: seq<nat>)
    requires forall i :: 0 <= i < |places| ==> places[i] < |queue|
    ensures Reverse(Pick(queue, places)) == Pick(queue, seq(|places|, i requires 0 <= i < |places| => places[|places| - 1 - i]))
  {
    hide Reverse;
    forall i | 0 <= i < |places| ensures Reverse(Pick(queue, places))[i] == queue[places[|places| - 1 - i]] {
      ReverseAt(Pick(queue, places), i);
    }
  }

  ghost predicate Increasing(places: seq<nat>) {
    forall i, j :: 0 <= i < j < |places| ==> places[i] < places[j]
  }

  /** A filtered drain keeps the order of the messages it does not return exactly when it puts none back, or
      one into an otherwise empty queue. */
  lemma OrderKeptIff(queue: seq<Message>, channels: seq<string>, max: int)
    ensures var n := Drained(queue, max);
      var back := Filter(Off(set c | c in channels), queue[..n]);
      Increasing(PlacesAfter(queue, channels, max)) <==> back == [] || (|back| == 1 && n == |queue|)
  {
    hide Filter, PlacesOff;
    var n, wanted := Drained(queue, max), set c | c in channels;
    var off, places := PlacesOff(queue, wanted, n), PlacesAfter(queue, channels, max);
    OffIsPicked(queue, wanted, n);
    if off != [] && n < |queue| {
      assert places[0] == n && places[|queue| - n] == off[|off| - 1];
    } else if |off| >= 2 {
      assert places[0] == off[|off| - 1] && places[1] == off[|off| - 2];
    }
  }

  lemma BothOff(first: Message, second: Message, channels: set<string>)
    requires first.channel !in channels && second.channel !in channels
    ensures Filter(Off(channels), [first, second]) == [first, second] && Filter(On(channels), [first, second]) == []
  {
    hide Filter;
    FilterEmpty(Off(channels));
    FilterEmpty(On(channels));
    FilterCons(Off(channels), second, []);
    FilterCons(On(channels), second, []);
    FilterCons(Off(channels), first, [second]);
    FilterCons(On(channels), first, [second]);
    assert [second] + [] == [second] && [first] + [second] == [first, second];
  }

  lemma ReversePair(first: Message, second: Message)
    ensures Reverse([first, second]) == [second, first]
  {
    ReverseAt([first, second], 0);
    ReverseAt([first, second], 1);
  }

  /** Two messages of another channel change places. */
  lemma OrderLost() returns (queue: seq<Message>)
    ensures |queue| == 2 && queue[0] != queue[1]
    ensures Receive(queue, Some(["a"]), 2) == ([queue[1], queue[0]], [])
  {
    hide Filter, Reverse, Receive;
    var first, second := Message(1, "b", "s", "", None, 0.0, 1, None), Message(2, "b", "s", "", None, 0.0, 2, None);
    queue := [first, second];
    BothOff(first, second, set c | c in ["a"]);
    ReversePair(first, second);
    ReceiveIs(queue, Some(["a"]), 2);
    assert queue[..2] == queue && queue[2..] == [] && [] + [second, first] == [second, first];
  }

  // ---------------------------------------------------------------- one receive, by places

  /** `back` was put back from these places, the last one first: those up to n that `channels` does not name. */
  ghost predicate PutBack(queue: seq<Message>, channels: Option<seq<string>>, n: nat, back: seq<Message>, put: seq<nat>) {
    && |back| == |put| && (forall i :: 0 <= i < |put| ==> put[i] < |queue| && back[i] == queue[put[i]])
    && (forall i, j :: 0 <= i < j < |put| ==> put[i] > put[j])
    && (forall k: nat :: k in put <==> k < n && k < |queue| && channels.Some? && queue[k].channel !in channels.value)
  }

  /** `messages` were returned from these places, in order: those up to n whose channel is asked for. */
  ghost predicate ReturnedFrom(queue: seq<Message>, channels: Option<seq<string>>, n: nat, messages: seq<Message>, kept: seq<nat>) {
    && |messages| == |kept| && (forall i :: 0 <= i < |kept| ==> kept[i] < |queue| && messages[i] == queue[kept[i]])
    && (forall i, j :: 0 <= i < j < |kept| ==> kept[i] < kept[j])
    && (forall k: nat :: k in kept <==> k < n && k < |queue| && (channels.None? || queue[k].channel in channels.value))
  }

  /** A receive looks at the first n messages, as many as there are up to the limit. It returns those of the
      wanted channels, all of them when none are named, in order; it puts the others back behind the rest,
      the last one first. */
  lemma ReceiveExactly(queue: seq<Message>, channels: Option<seq<string>>, max: int, n: nat)
    returns (kept: seq<nat>, back: seq<Message>, put: seq<nat>)
    requires n == max <= |queue| || n == |queue| < max || (n == 0 && max < 0)
    ensures Receive(queue, channels, max).0 == queue[n..] + back
    ensures ReturnedFrom(queue, channels, n, Receive(queue, channels, max).1, kept)
    ensures PutBack(queue, channels, n, back, put)
  {
    hide Filter, Reverse, ReturnedFrom, PutBack, On, Off;
    assert n == Drained(queue, max);
    match channels
    case None =>
      kept, back, put := seq(n, i => i), [], [];
      assert queue[n..] == queue[n..] + [];
      NoneNamed(queue, n, kept);
    case Some(names) =>
      var wanted := set c | c in names;
      var off := Filter(Off(wanted), queue[..n]);
      kept := FilterPicks(On(wanted), queue[..n]);
      var places := FilterPicks(Off(wanted), queue[..n]);
      KeptOn(queue, names, n, kept);
      back := Reverse(off);
      put := seq(|places|, i requires 0 <= i < |places| => places[|places| - 1 - i]);
      OffPutBack(queue, names, n, places, put);
  }

  lemma NoneNamed(queue: seq<Message>, n: nat, kept: seq<nat>)
    requires n <= |queue| && kept == seq(n, i => i)
    ensures ReturnedFrom(queue, None, n, queue[..n], kept) && PutBack(queue, None, n, [], [])
  {
    forall k: nat ensures k in kept <==> k < n {
      if k < n { assert kept[k] == k; }
    }
  }

  lemma KeptOn(queue: seq<Message>, names: seq<string>, n: nat, kept: seq<nat>)
    requires n <= |queue|
    requires var wanted := set c | c in names; PickedAt(On(wanted), queue[..n], Filter(On(wanted), queue[..n]), kept)
    ensures var wanted := set c | c in names; ReturnedFrom(queue, Some(names), n, Filter(On(wanted), queue[..n]), kept)
  {
    hide Filter;
    assert forall k: nat :: k < n ==> queue[..n][k] == queue[k];
  }

  lemma OffPutBack(queue: seq<Message>, names: seq<string>, n: nat, places: seq<nat>, put: seq<nat>)
    requires n <= |queue|
    requires var wanted := set c | c in names; PickedAt(Off(wanted), queue[..n], Filter(Off(wanted), queue[..n]), places)
    requires put == seq(|places|, i requires 0 <= i < |places| => places[|places| - 1 - i])
    ensures var wanted := set c | c in names; PutBack(queue, Some(names), n, Reverse(Filter(Off(wanted), queue[..n])), put)
  {
    hide Filter, Reverse, Off, PickedAt;
    var wanted := set c | c in names;
    var off := Filter(Off(wanted), queue[..n]);
    OffPlaces(queue, names, n, off, places);
    BackInPlace(queue, off, places, put);
  }

  lemma OffPlaces(queue: seq<Message>, names: seq<string>, n: nat, off: seq<Message>, places: seq<nat>)
    requires n <= |queue|
    requires var wanted := set c | c in names; PickedAt(Off(wanted), queue[..n], off, places)
    ensures |off| == |places| && forall i :: 0 <= i < |places| ==> places[i] < |queue| && off[i] == queue[places[i]]
    ensures forall i, j :: 0 <= i < j < |places| ==> places[i] < places[j]
    ensures forall k: nat :: k in places <==> k < n && queue[k].channel !in names
  {
    var front := queue[..n];
    assert forall k: nat :: k < n ==> front[k] == queue[k];
  }

  lemma BackInPlace(front: seq<Message>, off: seq<Message>, places: seq<nat>, put: seq<nat>)
    requires |off| == |places| && forall i :: 0 <= i < |places| ==> places[i] < |front| && off[i] == front[places[i]]
    requires forall i, j :: 0 <= i < j < |places| ==> places[i] < places[j]
    requires |put| == |places| && forall i :: 0 <= i < |places| ==> put[i] == places[|places| - 1 - i]
    ensures |Reverse(off)| == |put| && forall i :: 0 <= i < |put| ==> put[i] < |front| && Reverse(off)[i] == front[put[i]]
    ensures forall i, j :: 0 <= i < j < |put| ==> put[i] > put[j]
    ensures forall k: nat :: k in put <==> k in places
  {
    hide Reverse;
    SamePlaces(places, put);
    forall i | 0 <= i < |off| ensures Reverse(off)[i] == front[put[i]] {
      ReverseAt(off, i);
    }
  }

  lemma SamePlaces(places: seq<nat>, put: seq<nat>)
    requires |put| == |places| && forall i :: 0 <= i < |places| ==> put[i] == places[|places| - 1 - i]
    ensures forall k: nat :: k in put <==> k in places
  {
    forall k: nat ensures k in put <==> k in places {
      if k in places {
        var i :| 0 <= i < |places| && places[i] == k;
        assert put[|places| - 1 - i] == k;
      }
    }
  }
}
