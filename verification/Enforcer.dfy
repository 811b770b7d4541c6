/** The cadence enforcer: the decision on each event, the counters it is based on, and both over runs. */
module Enforcer {
  import opened Options

  datatype EventType = ToolUsed | ChannelRecv | ChannelSend | StopRequested | TurnStarted

  datatype Event = Event(kind: EventType, toolName: string, inboxNonEmpty: Option<bool>, timestamp: real)

  datatype State = State(toolCalls: int, turns: int, sends: int, lastDrain: Option<real>, lastSend: Option<real>)

  datatype Policy = Policy(toolThreshold: int, turnThreshold: int, forceDrainOnStop: bool,
                           idleTurns: int, suspectSendAndWait: bool)

  datatype Action = Noop | InjectDrain | InjectSendAndWait | Block

  const FRESH: State := State(0, 0, 0, None, None)

  predicate RecvTool(name: string) {
    name in {"channels__recv", "mcp__sox__channels__recv"}
  }

  predicate SendTool(name: string) {
    name in {"channels__send", "mcp__sox__channels__send"}
  }

  /** The decision, on the state before the event is applied. */
  function Decide(event: Event, state: State, policy: Policy): Action {
    match event.kind
    case ToolUsed =>
      if RecvTool(event.toolName) then Noop
      else if state.toolCalls + 1 >= policy.toolThreshold then InjectDrain else Noop
    case ChannelRecv => Noop
    case ChannelSend =>
      if policy.suspectSendAndWait && state.sends > 0 && state.turns >= policy.idleTurns then InjectSendAndWait else Noop
    case StopRequested =>
      var nonEmpty := if event.inboxNonEmpty.Some? then event.inboxNonEmpty.value else state.sends > 0;
      if nonEmpty && policy.forceDrainOnStop then Block else Noop
    case TurnStarted =>
      if state.turns + 1 >= policy.turnThreshold then InjectDrain else Noop
  }

  /** The state update; it looks at the event's type only. */
  function ApplyEvent(state: State, event: Event): State {
    match event.kind
    case ChannelRecv => State(0, 0, 0, Some(event.timestamp), state.lastSend)
    case ToolUsed => state.(toolCalls := state.toolCalls + 1)
    case ChannelSend => state.(lastSend := Some(event.timestamp), sends := state.sends + 1)
    case TurnStarted => state.(turns := state.turns + 1)
    case StopRequested => state
  }

  /** The stored state of every agent. */
  class StateStore {
    var rows: map<string, State>

    constructor ()
      ensures rows == map[]
    {
      rows := map[];
    }

    function Load(agent: string): State
      reads this
    {
      if agent in rows then rows[agent] else FRESH
    }

    /** Load, update, save. */
    method Apply(agent: string, event: Event) returns (state: State)
      modifies this
      ensures state == ApplyEvent(old(Load(agent)), event)
      ensures rows == old(rows)[agent := state]
    {
      state := if agent in rows then rows[agent] else FRESH;
      match event.kind {
        case ChannelRecv =>
          state := state.(toolCalls := 0, sends := 0, turns := 0, lastDrain := Some(event.timestamp));
        case ToolUsed => state := state.(toolCalls := state.toolCalls + 1);
        case ChannelSend => state := state.(lastSend := Some(event.timestamp), sends := state.sends + 1);
        case TurnStarted => state := state.(turns := state.turns + 1);
        case StopRequested =>
      }
      rows := rows[agent := state];
    }

    /** One hook call: decide on the state before the event, then apply it. */
    method Hook(agent: string, event: Event, policy: Policy) returns (action: Action)
      modifies this
      ensures action == Decide(event, old(Load(agent)), policy)
      ensures Load(agent) == ApplyEvent(old(Load(agent)), event)
      ensures forall other :: other != agent ==> Load(other) == old(Load(other))
    {
      action := Decide(event, Load(agent), policy);
      var _ := Apply(agent, event);
    }
  }

  /** The bridge's event for a finished tool call: receiving and sending tools get their own type. */
  function ToolEvent(toolName: string, timestamp: real): Event {
    Event(if RecvTool(toolName) then ChannelRecv else if SendTool(toolName) then ChannelSend else ToolUsed,
          toolName, None, timestamp)
  }

  // ---------------------------------------------------------------- runs

  function After(events: seq<Event>): State {
    if events == [] then FRESH else ApplyEvent(After(events[..|events| - 1]), events[|events| - 1])
  }

  /** The decision on event k of a run. */
  function DecisionAt(events: seq<Event>, policy: Policy, k: nat): Action
    requires k < |events|
  {
    Decide(events[k], After(events[..k]), policy)
  }

  /** The events since the last receive. */
  function SinceRecv(events: seq<Event>): seq<Event> {
    if events == [] || events[|events| - 1].kind == ChannelRecv then []
    else SinceRecv(events[..|events| - 1]) + [events[|events| - 1]]
  }

  /** It is the longest end of the run without a receive. */
  lemma {:induction false} SinceRecvIsLongest(events: seq<Event>)
    ensures var n := |SinceRecv(events)|;
      n <= |events| && SinceRecv(events) == events[|events| - n..] &&
      (forall k :: |events| - n <= k < |events| ==> events[k].kind != ChannelRecv) &&
      (n < |events| ==> events[|events| - n - 1].kind == ChannelRecv)
  {
    if events != [] && events[|events| - 1].kind != ChannelRecv {
      var init, last := events[..|events| - 1], events[|events| - 1];
      SinceRecvIsLongest(init);
      var n := |SinceRecv(init)|;
      assert SinceRecv(events) == init[|init| - n..] + [last] == events[|init| - n..];
    }
  }

  function Count(events: seq<Event>, kind: EventType): nat {
    if events == [] then 0
    else Count(events[..|events| - 1], kind) + if events[|events| - 1].kind == kind then 1 else 0
  }

  lemma CountNext(events: seq<Event>, e: Event, kind: EventType)
    ensures Count(events + [e], kind) == if e.kind == kind then Count(events, kind) + 1 else Count(events, kind)
  {
    assert (events + [e])[..|events|] == events;
  }

  lemma AfterNext(events: seq<Event>, k: nat)
    requires k < |events|
    ensures After(events[..k + 1]) == ApplyEvent(After(events[..k]), events[k])
  {
    assert events[..k + 1][..k] == events[..k];
  }

  /** The count of one kind since the last receive, after one more event. */
  lemma SinceCount(events: seq<Event>, e: Event, kind: EventType)
    requires kind != ChannelRecv
    ensures Count(SinceRecv(events + [e]), kind) ==
      if e.kind == ChannelRecv then 0
      else if e.kind == kind then Count(SinceRecv(events), kind) + 1
      else Count(SinceRecv(events), kind)
  {
  }

  lemma NothingYet(events: seq<Event>, kind: EventType)
    ensures After(events[..0]) == FRESH && Count(SinceRecv(events[..0]), kind) == 0
  {
    assert events[..0] == [];
  }

  /** The stored counters are the numbers of tool, turn and send events since the last receive. */
  lemma {:induction false} CountersCount(events: seq<Event>, k: nat)
    requires k <= |events|
    ensures After(events[..k]).toolCalls == Count(SinceRecv(events[..k]), ToolUsed)
    ensures After(events[..k]).turns == Count(SinceRecv(events[..k]), TurnStarted)
    ensures After(events[..k]).sends == Count(SinceRecv(events[..k]), ChannelSend)
  {
    hide SinceRecv, Count, After;
    if k == 0 {
      NothingYet(events, ToolUsed);
      NothingYet(events, TurnStarted);
      NothingYet(events, ChannelSend);
    } else {
      CountersCount(events, k - 1);
      AfterNext(events, k - 1);
      assert events[..k] == events[..k - 1] + [events[k - 1]];
      SinceCount(events[..k - 1], events[k - 1], ToolUsed);
      SinceCount(events[..k - 1], events[k - 1], TurnStarted);
      SinceCount(events[..k - 1], events[k - 1], ChannelSend);
    }
  }

  /** No receiving tool arrives as a plain tool event: what the bridge guarantees. */
  ghost predicate Bridged(events: seq<Event>) {
    forall k :: 0 <= k < |events| && events[k].kind == ToolUsed ==> !RecvTool(events[k].toolName)
  }

  lemma BridgeEventsAreBridged(events: seq<Event>)
    requires forall k :: 0 <= k < |events| && events[k].kind == ToolUsed ==> events[k] == ToolEvent(events[k].toolName, events[k].timestamp)
    ensures Bridged(events)
  {
  }

  /** A reminder is injected at a tool (or turn) event exactly when the number of such events since the
      last receive, this one included, has reached the threshold. */
  lemma InjectsAtThreshold(events: seq<Event>, policy: Policy, k: nat)
    requires Bridged(events) && k < |events|
    ensures events[k].kind == ToolUsed ==>
      (DecisionAt(events, policy, k) == InjectDrain <==> Count(SinceRecv(events[..k + 1]), ToolUsed) >= policy.toolThreshold)
    ensures events[k].kind == TurnStarted ==>
      (DecisionAt(events, policy, k) == InjectDrain <==> Count(SinceRecv(events[..k + 1]), TurnStarted) >= policy.turnThreshold)
    ensures events[k].kind == ChannelSend ==>
      (DecisionAt(events, policy, k) == InjectSendAndWait <==>
        policy.suspectSendAndWait && Count(SinceRecv(events[..k]), ChannelSend) > 0
        && Count(SinceRecv(events[..k]), TurnStarted) >= policy.idleTurns)
    ensures events[k].kind == StopRequested ==>
      (DecisionAt(events, policy, k) == Block <==>
        policy.forceDrainOnStop && if events[k].inboxNonEmpty.Some? then events[k].inboxNonEmpty.value
                                   else Count(SinceRecv(events[..k]), ChannelSend) > 0)
    ensures events[k].kind == ChannelRecv ==> DecisionAt(events, policy, k) == Noop
  {
    hide SinceRecv, Count, After;
    CountersCount(events, k);
    assert events[..k + 1] == events[..k] + [events[k]];
    SinceCount(events[..k], events[k], ToolUsed);
    SinceCount(events[..k], events[k], TurnStarted);
  }

  lemma NothingCounted(events: seq<Event>, i: nat, kind: EventType)
    requires i <= |events|
    ensures Count(events[i..i], kind) == 0
  {
    assert events[i..i] == [];
  }

  lemma {:induction false} CountGrows(events: seq<Event>, i: nat, j: nat, kind: EventType)
    requires i <= j <= |events| && kind != ChannelRecv
    requires forall k :: i <= k < j ==> events[k].kind != ChannelRecv
    ensures Count(SinceRecv(events[..j]), kind) == Count(SinceRecv(events[..i]), kind) + Count(events[i..j], kind)
  {
    hide SinceRecv, Count;
    if i == j {
      NothingCounted(events, i, kind);
    } else {
      CountGrows(events, i, j - 1, kind);
      assert events[..j] == events[..j - 1] + [events[j - 1]];
      SinceCount(events[..j - 1], events[j - 1], kind);
      assert events[i..j] == events[i..j - 1] + [events[j - 1]];
      CountNext(events[i..j - 1], events[j - 1], kind);
    }
  }

  /** A stretch of events without a receive that holds at least `toolThreshold` tool events and ends with
      one does not pass silently: its last tool event injects the reminder. */
  lemma NoSilentStretch(events: seq<Event>, policy: Policy, i: nat, k: nat)
    requires Bridged(events) && i <= k < |events| && events[k].kind == ToolUsed
    requires forall n :: i <= n <= k ==> events[n].kind != ChannelRecv
    requires Count(events[i..k + 1], ToolUsed) >= policy.toolThreshold
    ensures DecisionAt(events, policy, k) == InjectDrain
  {
    CountGrows(events, i, k + 1, ToolUsed);
    InjectsAtThreshold(events, policy, k);
  }

  // ---------------------------------------------------------------- hooks that overlap

  /** The decision of a hook that loaded the state after l events and whose own event was applied as event k. */
  function OverlappedDecision(events: seq<Event>, policy: Policy, l: nat, k: nat): Action
    requires l <= k < |events|
  {
    Decide(events[k], After(events[..l]), policy)
  }

  /** Events applied between the load and the hook's own are missing from its count: it injects exactly when
      the count without them reaches the threshold, so its decision differs from that of a hook nothing
      overlaps exactly when the threshold is reached with them and not without. A receive applied in between
      is overlooked as well. */
  lemma OverlapDelays(events: seq<Event>, policy: Policy, l: nat, k: nat)
    requires Bridged(events) && l <= k < |events| && events[k].kind == ToolUsed
    ensures OverlappedDecision(events, policy, l, k) == InjectDrain <==>
      Count(SinceRecv(events[..l]), ToolUsed) + 1 >= policy.toolThreshold
    ensures (forall n :: l <= n < k ==> events[n].kind != ChannelRecv) ==>
      var count, overlapped := Count(SinceRecv(events[..k + 1]), ToolUsed), Count(events[l..k], ToolUsed);
      OverlappedDecision(events, policy, l, k) != DecisionAt(events, policy, k) <==>
        count >= policy.toolThreshold > count - overlapped
  {
    hide SinceRecv, Count, After;
    CountersCount(events, l);
    CountersCount(events, k);
    assert events[..k + 1] == events[..k] + [events[k]];
    SinceCount(events[..k], events[k], ToolUsed);
    if forall n :: l <= n < k ==> events[n].kind != ChannelRecv {
      CountGrows(events, l, k, ToolUsed);
    }
  }

  /** The decision on a plain tool event agrees with the counter after it exactly when the tool is not a
      receiving one, or the threshold is not reached anyway. */
  lemma DecisionAgreesIff(event: Event, state: State, policy: Policy)
    requires event.kind == ToolUsed
    ensures (Decide(event, state, policy) == InjectDrain <==> ApplyEvent(state, event).toolCalls >= policy.toolThreshold)
      <==> (!RecvTool(event.toolName) || state.toolCalls + 1 < policy.toolThreshold)
  {
  }

  // ---------------------------------------------------------------- every action, in full

  /** `Count` counts. */
  lemma {:induction false} CountIsSize(events: seq<Event>, kind: EventType)
    ensures Count(events, kind) == |set i | 0 <= i < |events| && events[i].kind == kind|
  {
    if events != [] {
      var n := |events| - 1;
      CountIsSize(events[..n], kind);
      PlacesNext(events, kind);
      hide Count;
      CountLast(events, kind);
    }
  }

  lemma CountLast(events: seq<Event>, kind: EventType)
    requires events != []
    ensures var n := |events| - 1;
      Count(events, kind) == Count(events[..n], kind) + if events[n].kind == kind then 1 else 0
  {
  }

  lemma PlacesNext(events: seq<Event>, kind: EventType)
    requires events != []
    ensures var n := |events| - 1;
      |set i | 0 <= i < |events| && events[i].kind == kind|
        == |set i | 0 <= i < n && events[..n][i].kind == kind| + if events[n].kind == kind then 1 else 0
  {
    var n := |events| - 1;
    OneMorePlace(n, events[n].kind == kind, (set i | 0 <= i < n && events[..n][i].kind == kind),
                 (set i | 0 <= i < |events| && events[i].kind == kind));
  }

  lemma OneMorePlace(n: int, more: bool, before: set<int>, after: set<int>)
    requires forall i :: i in before ==> i < n
    requires forall i :: i in after <==> i in before || (i == n && more)
    ensures |after| == |before| + if more then 1 else 0
  {
    var expected := if more then before + {n} else before;
    assert forall i :: i in after <==> i in expected;
    assert after == expected;
  }

  /** Which action is taken on event k of any run. */
  lemma ActionsExactly(events: seq<Event>, policy: Policy, k: nat)
    requires k < |events|
    ensures var since, event := SinceRecv(events[..k]), events[k];
      DecisionAt(events, policy, k) ==
        match event.kind
        case ToolUsed =>
          if event.toolName != "channels__recv" && event.toolName != "mcp__sox__channels__recv"
             && Count(since, ToolUsed) + 1 >= policy.toolThreshold then InjectDrain else Noop
        case TurnStarted => if Count(since, TurnStarted) + 1 >= policy.turnThreshold then InjectDrain else Noop
        case ChannelSend =>
          if policy.suspectSendAndWait && Count(since, ChannelSend) > 0 && Count(since, TurnStarted) >= policy.idleTurns
          then InjectSendAndWait else Noop
        case StopRequested =>
          if policy.forceDrainOnStop
             && (event.inboxNonEmpty == Some(true) || (event.inboxNonEmpty == None && Count(since, ChannelSend) > 0))
          then Block else Noop
        case ChannelRecv => Noop
  {
    hide SinceRecv, Count, After;
    CountersCount(events, k);
  }

  /** The bridge's event for every tool. */
  lemma BridgeMaps(toolName: string, timestamp: real)
    ensures var event := ToolEvent(toolName, timestamp);
      && event.toolName == toolName && event.timestamp == timestamp && event.inboxNonEmpty == None
      && (event.kind == ChannelRecv <==> toolName == "channels__recv" || toolName == "mcp__sox__channels__recv")
      && (event.kind == ChannelSend <==> toolName == "channels__send" || toolName == "mcp__sox__channels__send")
      && event.kind in {ChannelRecv, ChannelSend, ToolUsed}
  {
  }

  /** Event k is the last of its kind. */
  ghost predicate LastOf(events: seq<Event>, kind: EventType, k: nat) {
    k < |events| && events[k].kind == kind && forall n :: k < n < |events| ==> events[n].kind != kind
  }

  lemma AfterInit(events: seq<Event>)
    requires events != []
    ensures After(events) == ApplyEvent(After(events[..|events| - 1]), events[|events| - 1])
  {
  }

  /** The stored times are those of the last receive and of the last send. */
  lemma {:induction false} LastTimes(events: seq<Event>, kind: EventType, k: nat)
    requires LastOf(events, kind, k)
    ensures kind == ChannelRecv ==> After(events).lastDrain == Some(events[k].timestamp)
    ensures kind == ChannelSend ==> After(events).lastSend == Some(events[k].timestamp)
  {
    hide After;
    AfterInit(events);
    if k < |events| - 1 {
      LastTimes(events[..|events| - 1], kind, k);
    }
  }

  /** Without a receive, or without a send, there is none. */
  lemma {:induction false} NoTimes(events: seq<Event>, kind: EventType)
    requires forall k :: 0 <= k < |events| ==> events[k].kind != kind
    ensures kind == ChannelRecv ==> After(events).lastDrain == None
    ensures kind == ChannelSend ==> After(events).lastSend == None
  {
    if events != [] {
      hide After;
      AfterInit(events);
      NoTimes(events[..|events| - 1], kind);
    }
  }
}
