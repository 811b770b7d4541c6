/** What a call of the chain answers, and what its layers see of each other. */
module PipelineCalls {
  import opened Pipeline

  /** How a call of the chain from layer `i` on ends; the trace entries have no influence on it. */
  function Ending(p: Chain, i: nat, ctx: Context): Outcome
    requires Finite(p) && i <= |p.middlewares|
  {
    Call(p, i, ctx, FreshTrace(p, "")).outcome
  }

  lemma {:induction false} TraceUnseen(p: Chain, i: nat, ctx: Context, s: seq<Entry>, t: seq<Entry>)
    requires Finite(p) && i <= |p.middlewares| == |s| == |t|
    ensures Call(p, i, ctx, s).outcome == Call(p, i, ctx, t).outcome
    decreases |p.middlewares| - i, 1, 0
  {
    if i < |p.middlewares| {
      TraceUnseenBehave(p, i, ctx, [], s, t, [Started(i)], i, [Started(i)], i);
    }
  }

  lemma {:induction false} TraceUnseenBehave(p: Chain, i: nat, ctx: Context, history: seq<Outcome>, s: seq<Entry>, t: seq<Entry>,
                                             log: seq<Event>, origin: nat, log': seq<Event>, origin': nat)
    requires Finite(p) && i < |p.middlewares| == |s| == |t|
    ensures Behave(p, i, ctx, history, s, log, origin).outcome == Behave(p, i, ctx, history, t, log', origin').outcome
    decreases |p.middlewares| - i, 0, p.middlewares[i].calls(ctx) - |history|
  {
    match p.middlewares[i].act(ctx, history)
    case Forward(next) =>
      TraceUnseen(p, i + 1, next, s, t);
      var down, down' := Call(p, i + 1, next, s), Call(p, i + 1, next, t);
      TraceUnseenBehave(p, i, ctx, history + [down.outcome], down.trace, down'.trace,
                        log + down.log, down.origin, log' + down'.log, down'.origin);
    case _ =>
  }

  /** The outcomes the layer has seen are those of its forwards, in order, each forwarded on what it had seen
      before. */
  ghost predicate Conversation(p: Chain, i: nat, ctx: Context, history: seq<Outcome>)
    requires Finite(p) && i < |p.middlewares|
  {
    forall k :: 0 <= k < |history| ==> Exchange(p, i, ctx, history, k)
  }

  ghost predicate Exchange(p: Chain, i: nat, ctx: Context, history: seq<Outcome>, k: nat)
    requires Finite(p) && i < |p.middlewares| && k < |history|
  {
    var action := p.middlewares[i].act(ctx, history[..k]);
    action.Forward? && history[k] == Ending(p, i + 1, action.ctx)
  }

  /** What the layer does in the end is how its call ends. */
  ghost predicate EndsWith(action: Action, o: Outcome) {
    match action
    case Forward(_) => false
    case Answer(response) => o == Responded(response)
    case ShortCircuit(response) => o == ShortCircuited(response)
    case Raise(error) => o == Failed(error)
  }

  /** Past the last layer the terminal handler decides. */
  lemma TerminalDecides(p: Chain, ctx: Context)
    requires Finite(p)
    ensures Ending(p, |p.middlewares|, ctx) == p.terminal(ctx)
  {
  }

  /** A layer forwards, sees exactly what the chain below answers to what it forwards, and ends as it decides
      on all of that. */
  lemma LayerConverses(p: Chain, i: nat, ctx: Context) returns (history: seq<Outcome>)
    requires Finite(p) && i < |p.middlewares|
    ensures Conversation(p, i, ctx, history)
    ensures EndsWith(p.middlewares[i].act(ctx, history), Ending(p, i, ctx))
  {
    history := BehaveConverses(p, i, ctx, [], FreshTrace(p, ""), [Started(i)], i);
  }

  lemma {:induction false} BehaveConverses(p: Chain, i: nat, ctx: Context, seen: seq<Outcome>, trace: seq<Entry>,
                                           log: seq<Event>, origin: nat) returns (history: seq<Outcome>)
    requires Finite(p) && i < |p.middlewares| == |trace| && Conversation(p, i, ctx, seen)
    ensures Conversation(p, i, ctx, history)
    ensures EndsWith(p.middlewares[i].act(ctx, history), Behave(p, i, ctx, seen, trace, log, origin).outcome)
    decreases p.middlewares[i].calls(ctx) - |seen|
  {
    hide Call, Ending, Exchange;
    var action := p.middlewares[i].act(ctx, seen);
    if action.Forward? {
      var down := Call(p, i + 1, action.ctx, trace);
      ConversationNext(p, i, ctx, seen, trace);
      history := BehaveConverses(p, i, ctx, seen + [down.outcome], down.trace, log + down.log, down.origin);
    } else {
      history := seen;
    }
  }

  lemma ConversationNext(p: Chain, i: nat, ctx: Context, seen: seq<Outcome>, trace: seq<Entry>)
    requires Finite(p) && i < |p.middlewares| == |trace| && Conversation(p, i, ctx, seen)
    requires p.middlewares[i].act(ctx, seen).Forward?
    ensures Conversation(p, i, ctx, seen + [Call(p, i + 1, p.middlewares[i].act(ctx, seen).ctx, trace).outcome])
  {
    hide Call;
    var next := p.middlewares[i].act(ctx, seen).ctx;
    var longer := seen + [Call(p, i + 1, next, trace).outcome];
    TraceUnseen(p, i + 1, next, trace, FreshTrace(p, ""));
    forall k | 0 <= k < |longer| ensures Exchange(p, i, ctx, longer, k) {
      assert longer[..k] == seen[..k];
      if k < |seen| {
        assert Exchange(p, i, ctx, seen, k);
      } else {
        assert seen[..k] == seen;
      }
    }
  }

  /** One layer's conversation is determined: two of them agree as far as both go. */
  lemma {:induction false} SameConversation(p: Chain, i: nat, ctx: Context, g: seq<Outcome>, h: seq<Outcome>, n: nat)
    requires Finite(p) && i < |p.middlewares| && Conversation(p, i, ctx, g) && Conversation(p, i, ctx, h)
    requires n <= |g| && n <= |h|
    ensures g[..n] == h[..n]
  {
    if n > 0 {
      SameConversation(p, i, ctx, g, h, n - 1);
      assert Exchange(p, i, ctx, g, n - 1) && Exchange(p, i, ctx, h, n - 1);
      assert g[..n] == g[..n - 1] + [g[n - 1]] && h[..n] == h[..n - 1] + [h[n - 1]];
    }
  }

  /** Handing on what came back. */
  function PassBack(o: Outcome): Action {
    match o
    case Responded(response) => Answer(response)
    case ShortCircuited(response) => ShortCircuit(response)
    case Failed(error) => Raise(error)
  }

  lemma ExchangeForwards(p: Chain, i: nat, ctx: Context, history: seq<Outcome>, k: nat)
    requires Finite(p) && i < |p.middlewares| && k < |history| && Conversation(p, i, ctx, history)
    ensures var action := p.middlewares[i].act(ctx, history[..k]); action.Forward? && history[k] == Ending(p, i + 1, action.ctx)
  {
    hide Ending;
    assert Exchange(p, i, ctx, history, k);
  }

  /** When every layer forwards once, with some context, and passes back what it gets, the chain ends as the
      terminal handler does on the last of these contexts. */
  lemma {:induction false} PassedThrough(p: Chain, i: nat, contexts: seq<Context>)
    requires Finite(p) && |contexts| == |p.middlewares| + 1 && i <= |p.middlewares|
    requires forall j :: 0 <= j < |p.middlewares| ==> p.middlewares[j].act(contexts[j], []) == Forward(contexts[j + 1])
    requires forall j, o :: 0 <= j < |p.middlewares| ==> p.middlewares[j].act(contexts[j], [o]) == PassBack(o)
    ensures Ending(p, i, contexts[i]) == p.terminal(contexts[|p.middlewares|])
    decreases |p.middlewares| - i
  {
    hide Call, Ending;
    if i == |p.middlewares| {
      TerminalDecides(p, contexts[i]);
    } else {
      PassedThrough(p, i + 1, contexts);
      var history := LayerConverses(p, i, contexts[i]);
      var o := Ending(p, i + 1, contexts[i + 1]);
      assert history != [];
      ExchangeForwards(p, i, contexts[i], history, 0);
      assert history[..0] == [] && history[0] == o;
      assert |history| > 1 ==> history[..1] == [o];
      if |history| > 1 {
        ExchangeForwards(p, i, contexts[i], history, 1);
      }
      assert history == [o];
    }
  }

  // ---------------------------------------------------------------- the trace entries

  /** The entries keep whose they are. */
  ghost predicate SameOwners(s: seq<Entry>, t: seq<Entry>) {
    && |s| == |t|
    && forall j :: 0 <= j < |s| ==> t[j].pluginId == s[j].pluginId && t[j].kind == s[j].kind && t[j].correlationId == s[j].correlationId
  }

  lemma {:induction false} CallKeepsOwners(p: Chain, i: nat, ctx: Context, trace: seq<Entry>)
    requires Finite(p) && i <= |p.middlewares| == |trace|
    ensures SameOwners(trace, Call(p, i, ctx, trace).trace)
    decreases |p.middlewares| - i, 1, 0
  {
    if i < |p.middlewares| {
      BehaveKeepsOwners(p, i, ctx, [], trace, [Started(i)], i);
    }
  }

  lemma {:induction false} BehaveKeepsOwners(p: Chain, i: nat, ctx: Context, history: seq<Outcome>, trace: seq<Entry>,
                                             log: seq<Event>, origin: nat)
    requires Finite(p) && i < |p.middlewares| == |trace|
    ensures SameOwners(trace, Behave(p, i, ctx, history, trace, log, origin).trace)
    decreases |p.middlewares| - i, 0, p.middlewares[i].calls(ctx) - |history|
  {
    match p.middlewares[i].act(ctx, history)
    case Forward(next) =>
      var down := Call(p, i + 1, next, trace);
      CallKeepsOwners(p, i + 1, next, trace);
      BehaveKeepsOwners(p, i, ctx, history + [down.outcome], down.trace, log + down.log, down.origin);
    case _ =>
  }

  /** After a dispatch the trace has one entry for each layer, in order, with its name and kind and the
      dispatch's correlation id. */
  lemma TraceNames(p: Chain, ctx: Context, correlationId: string)
    requires Finite(p)
    ensures var trace := Call(p, 0, ctx, FreshTrace(p, correlationId)).trace;
      && |trace| == |p.middlewares|
      && (forall j :: 0 <= j < |trace| ==> trace[j].pluginId == p.middlewares[j].name && trace[j].kind == p.middlewares[j].kind)
      && (forall j :: 0 <= j < |trace| ==> trace[j].correlationId == correlationId)
  {
    hide Call;
    CallKeepsOwners(p, 0, ctx, FreshTrace(p, correlationId));
  }

  /** A dispatch ends as the chain does, from its first layer. */
  lemma DispatchEnds(p: Chain, ctx: Context, correlationId: string)
    requires Finite(p)
    ensures Call(p, 0, ctx, FreshTrace(p, correlationId)).outcome == Ending(p, 0, ctx)
  {
    hide Call;
    TraceUnseen(p, 0, ctx, FreshTrace(p, correlationId), FreshTrace(p, ""));
  }
}
