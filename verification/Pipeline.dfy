/** Dispatch through the nested middleware chain, and the trace the layers write while it runs. */
module Pipeline {

  // ---------------------------------------------------------------- responses, outcomes and behaviours

  /** The parts of a response dict the pipeline looks at or writes. */
  datatype Value = Null | Text(text: string) | Dict(fields: map<string, Value>) | Trace(entries: seq<Entry>)

  type Response = map<string, Value>

  datatype Verdict = Skipped | Passed | Rejected | Errored

  datatype Entry = Entry(pluginId: string, kind: string, verdict: Verdict, errorCode: Value, correlationId: string)

  /** How a call ends: with a response, or with an exception on its way up. */
  datatype Outcome = Responded(response: Response) | ShortCircuited(response: Response) | Failed(error: string)

  /** What stands for the request context a layer sees and passes on. */
  type Context = nat

  /** A layer's next move, given how its calls to the next layer have ended so far. */
  datatype Action = Forward(ctx: Context) | Answer(response: Response) | ShortCircuit(response: Response) | Raise(error: string)

  /** An arbitrary middleware: it may answer, stop, raise, forward any number of times up to `calls`, and
      deal as it likes with what comes back, including exceptions. */
  datatype Middleware = Middleware(name: string, kind: string, act: (Context, seq<Outcome>) -> Action, calls: Context -> nat)

  datatype Chain = Chain(middlewares: seq<Middleware>, terminal: Context -> Outcome)

  /** Every layer stops forwarding after its number of calls. */
  ghost predicate Finite(p: Chain) {
    forall mw, ctx, history :: mw in p.middlewares && |history| >= mw.calls(ctx) ==> !mw.act(ctx, history).Forward?
  }

  // ---------------------------------------------------------------- what a call does

  /** The layer's entry once its call has ended. An error code is written on rejection and otherwise left. */
  function Conclude(entry: Entry, o: Outcome): Entry {
    match o
    case Responded(response) =>
      if "error_code" in response then entry.(verdict := Rejected, errorCode := response["error_code"])
      else entry.(verdict := Passed)
    case ShortCircuited(response) => entry.(verdict := Rejected, errorCode := ErrorCode(response))
    case Failed(_) => entry.(verdict := Errored)
  }

  /** `response.get("error_code")` */
  function ErrorCode(response: Response): Value {
    if "error_code" in response then response["error_code"] else Null
  }

  /** A call of a layer begins or ends. */
  datatype Event = Started(layer: nat) | Ended(layer: nat, outcome: Outcome)

  /** The end of a call: its outcome, the trace, what began and ended in order, and, for an exception, the
      layer that raised it (the number of layers for the terminal handler). */
  datatype Result = Result(outcome: Outcome, trace: seq<Entry>, log: seq<Event>, origin: nat)

  function Call(p: Chain, i: nat, ctx: Context, trace: seq<Entry>): (r: Result)
    requires Finite(p) && i <= |p.middlewares| == |trace|
    ensures |r.trace| == |trace|
    decreases |p.middlewares| - i, 1, 0
  {
    if i == |p.middlewares| then Result(p.terminal(ctx), trace, [], i)
    else
      var r := Behave(p, i, ctx, [], trace, [Started(i)], i);
      r.(trace := r.trace[i := Conclude(r.trace[i], r.outcome)], log := r.log + [Ended(i, r.outcome)])
  }

  /** Layer `i` at work, with the outcomes of its calls so far; `origin` is the raiser of the last one. */
  function Behave(p: Chain, i: nat, ctx: Context, history: seq<Outcome>, trace: seq<Entry>, log: seq<Event>, origin: nat): (r: Result)
    requires Finite(p) && i < |p.middlewares| == |trace|
    ensures |r.trace| == |trace|
    decreases |p.middlewares| - i, 0, p.middlewares[i].calls(ctx) - |history|
  {
    match p.middlewares[i].act(ctx, history)
    case Forward(next) =>
      var down := Call(p, i + 1, next, trace);
      Behave(p, i, ctx, history + [down.outcome], down.trace, log + down.log, down.origin)
    case Answer(response) => Result(Responded(response), trace, log, i)
    case ShortCircuit(response) => Result(ShortCircuited(response), trace, log, RaisedBy(ShortCircuited(response), history, origin, i))
    case Raise(error) => Result(Failed(error), trace, log, RaisedBy(Failed(error), history, origin, i))
  }

  /** An exception equal to the last one received is that one passing through. */
  function RaisedBy(o: Outcome, history: seq<Outcome>, origin: nat, i: nat): nat {
    if history != [] && history[|history| - 1] == o then origin else i
  }

  // ---------------------------------------------------------------- the pipeline object

  class PipelineRun {
    const chain: Chain
    var trace: seq<Entry>

    constructor (chain: Chain, correlationId: string)
      ensures this.chain == chain && trace == FreshTrace(chain, correlationId)
    {
      this.chain := chain;
      this.trace := FreshTrace(chain, correlationId);
    }

    /** The nested call for layer `i`; its entry is rewritten when the call ends. */
    method RunCall(i: nat, ctx: Context) returns (o: Outcome, ghost r: Result)
      requires Finite(chain) && i <= |chain.middlewares| == |trace|
      modifies this
      ensures r == Call(chain, i, ctx, old(trace))
      ensures o == r.outcome && trace == r.trace
      decreases |chain.middlewares| - i
    {
      if i == |chain.middlewares| {
        o := chain.terminal(ctx);
        r := Call(chain, i, ctx, trace);
        return;
      }
      var mw := chain.middlewares[i];
      var history: seq<Outcome> := [];
      ghost var log, origin := [Started(i)], i;
      var action := mw.act(ctx, history);
      while action.Forward?
        invariant |trace| == |chain.middlewares| && action == mw.act(ctx, history)
        invariant Behave(chain, i, ctx, [], old(trace), [Started(i)], i) == Behave(chain, i, ctx, history, trace, log, origin)
        decreases mw.calls(ctx) - |history|
      {
        var below;
        ghost var down;
        below, down := RunCall(i + 1, action.ctx);
        history := history + [below];
        log, origin := log + down.log, down.origin;
        action := mw.act(ctx, history);
      }
      match action {
        case Answer(response) => o := Responded(response);
        case ShortCircuit(response) => o := ShortCircuited(response);
        case Raise(error) => o := Failed(error);
      }
      r := Call(chain, i, ctx, old(trace));
      trace := trace[i := Conclude(trace[i], o)];
    }

    /** Run the chain and answer with a response whatever happened, the trace attached. */
    method Dispatch(ctx: Context, correlationId: string) returns (result: Response, ghost r: Result)
      requires Finite(chain) && trace == FreshTrace(chain, correlationId)
      modifies this
      ensures r == Call(chain, 0, ctx, old(trace)) && trace == r.trace
      ensures result == AttachTrace(ResponseOf(r.outcome), trace, correlationId)
      ensures Answers(result, r.outcome, trace, correlationId)
    {
      var o;
      o, r := RunCall(0, ctx);
      match o {
        case Responded(response) => result := response;
        case ShortCircuited(response) => result := response;
        case Failed(_) => result := InternalError();
      }
      var meta := if "metadata" in result && result["metadata"].Dict? then result["metadata"].fields else map[];
      meta := meta["pipeline_trace" := Trace(trace)];
      meta := meta["correlation_id" := Text(correlationId)];
      result := result["metadata" := Dict(meta)];
      ResponseAnswers(r.outcome, trace, correlationId);
    }
  }

  /** Outside its metadata the result is the response of the chain or of a short-circuit, or says that there
      was an internal error; its metadata hold the trace and the correlation id. */
  ghost predicate Answers(result: Response, o: Outcome, trace: seq<Entry>, correlationId: string) {
    && "metadata" in result && result["metadata"].Dict?
    && result["metadata"].fields.Items >= {("pipeline_trace", Trace(trace)), ("correlation_id", Text(correlationId))}
    && result - {"metadata"} ==
         match o
         case Responded(response) => response - {"metadata"}
         case ShortCircuited(response) => response - {"metadata"}
         case Failed(_) =>
           map["error_code" := Text("internal_error"), "message" := Text("Internal server error"),
               "detail" := Null, "retry_after" := Null]
  }

  lemma ResponseAnswers(o: Outcome, trace: seq<Entry>, correlationId: string)
    ensures Answers(AttachTrace(ResponseOf(o), trace, correlationId), o, trace, correlationId)
  {
    hide AttachTrace;
    AttachKeepsResponse(ResponseOf(o), trace, correlationId);
  }

  function FreshTrace(p: Chain, correlationId: string): seq<Entry> {
    seq(|p.middlewares|, i requires 0 <= i < |p.middlewares| =>
      Entry(p.middlewares[i].name, p.middlewares[i].kind, Skipped, Null, correlationId))
  }

  function InternalError(): Response {
    map["error_code" := Text("internal_error"), "message" := Text("Internal server error"), "detail" := Null, "retry_after" := Null]
  }

  function ResponseOf(o: Outcome): Response {
    if o.Failed? then InternalError() else o.response
  }

  function AttachTrace(result: Response, trace: seq<Entry>, correlationId: string): Response {
    var meta := if "metadata" in result && result["metadata"].Dict? then result["metadata"].fields else map[];
    result["metadata" := Dict(meta["pipeline_trace" := Trace(trace)]["correlation_id" := Text(correlationId)])]
  }

  /** Attaching the trace changes nothing of the response but its metadata, and of a metadata dict nothing
      but the two entries it owns. */
  lemma AttachKeepsResponse(result: Response, trace: seq<Entry>, correlationId: string)
    ensures var r := AttachTrace(result, trace, correlationId);
      && "metadata" in r && r["metadata"].Dict?
      && r - {"metadata"} == result - {"metadata"}
      && r["metadata"].fields.Items >= {("pipeline_trace", Trace(trace)), ("correlation_id", Text(correlationId))}
      && ("metadata" in result && result["metadata"].Dict? ==>
            r["metadata"].fields - {"pipeline_trace", "correlation_id"} == result["metadata"].fields - {"pipeline_trace", "correlation_id"})
  {
    var r := AttachTrace(result, trace, correlationId);
    assert r["metadata"].fields["pipeline_trace"] == Trace(trace);
    assert r["metadata"].fields["correlation_id"] == Text(correlationId);
  }

  // ---------------------------------------------------------------- skipped layers

  /** The layers numbered from..upto-1, and no others, are started in the log. */
  ghost predicate InvokedRange(log: seq<Event>, from: nat, upto: nat) {
    forall j: nat :: Started(j) in log <==> from <= j < upto
  }

  /** A call at layer i changes entries of i and deeper only; it invokes an unbroken range of layers
      starting at i, gives each of them a verdict, and leaves every other entry alone. */
  lemma {:induction false} CallTouches(p: Chain, i: nat, ctx: Context, trace: seq<Entry>) returns (d: nat)
    requires Finite(p) && i <= |p.middlewares| == |trace|
    ensures var r := Call(p, i, ctx, trace);
      && i <= d <= |trace| && (i < |trace| ==> i < d) && InvokedRange(r.log, i, d)
      && (forall j :: 0 <= j < i || d <= j < |trace| ==> r.trace[j] == trace[j])
      && (forall j :: i <= j < d ==> r.trace[j].verdict != Skipped)
    decreases |p.middlewares| - i, 1, 0
  {
    if i == |p.middlewares| {
      d := i;
    } else {
      d := BehaveTouches(p, i, ctx, [], trace, [Started(i)], i, i + 1);
    }
  }

  lemma {:induction false} BehaveTouches(p: Chain, i: nat, ctx: Context, history: seq<Outcome>, trace: seq<Entry>,
                                         log: seq<Event>, origin: nat, d0: nat) returns (d: nat)
    requires Finite(p) && i < |p.middlewares| == |trace|
    requires i < d0 <= |trace| && InvokedRange(log, i, d0) && forall j :: i < j < d0 ==> trace[j].verdict != Skipped
    ensures var r := Behave(p, i, ctx, history, trace, log, origin);
      && d0 <= d <= |trace| && InvokedRange(r.log, i, d)
      && (forall j :: 0 <= j <= i || d <= j < |trace| ==> r.trace[j] == trace[j])
      && (forall j :: i < j < d ==> r.trace[j].verdict != Skipped)
    decreases |p.middlewares| - i, 0, p.middlewares[i].calls(ctx) - |history|
  {
    match p.middlewares[i].act(ctx, history)
    case Forward(next) =>
      var down := Call(p, i + 1, next, trace);
      var d1 := CallTouches(p, i + 1, next, trace);
      var d2 := if d1 > d0 then d1 else d0;
      assert InvokedRange(log + down.log, i, d2);
      d := BehaveTouches(p, i, ctx, history + [down.outcome], down.trace, log + down.log, down.origin, d2);
    case _ =>
      d := d0;
  }

  /** In the trace of a dispatch the entries left "skipped" form a suffix, and they are exactly those of
      the layers that were never invoked. */
  lemma SkippedSuffix(p: Chain, ctx: Context, correlationId: string) returns (d: nat)
    requires Finite(p)
    ensures var r := Call(p, 0, ctx, FreshTrace(p, correlationId));
      && d <= |r.trace| && (|r.trace| > 0 ==> d > 0)
      && (forall j :: 0 <= j < |r.trace| ==> (r.trace[j].verdict == Skipped <==> j >= d))
      && (forall j: nat :: j < |r.trace| ==> (Started(j) in r.log <==> j < d))
  {
    d := CallTouches(p, 0, ctx, FreshTrace(p, correlationId));
  }

  // ---------------------------------------------------------------- exceptions

  /** The entry says how this exception (or response) left the layer. */
  ghost predicate Records(entry: Entry, o: Outcome) {
    match o
    case Responded(response) =>
      if "error_code" in response then entry.verdict == Rejected && entry.errorCode == response["error_code"] else entry.verdict == Passed
    case ShortCircuited(response) => entry.verdict == Rejected && entry.errorCode == ErrorCode(response)
    case Failed(_) => entry.verdict == Errored
  }

  /** When a call ends, its layer's entry records the end; when it ends with an exception raised at layer
      o, so do the entries of all layers from i to o. */
  lemma {:induction false} ExceptionMarks(p: Chain, i: nat, ctx: Context, trace: seq<Entry>)
    requires Finite(p) && i <= |p.middlewares| == |trace|
    ensures var r := Call(p, i, ctx, trace);
      && (i < |trace| ==> Records(r.trace[i], r.outcome))
      && (!r.outcome.Responded? ==>
            && i <= r.origin <= |trace|
            && forall j :: i <= j <= r.origin && j < |trace| ==> Records(r.trace[j], r.outcome))
    decreases |p.middlewares| - i, 1, 0
  {
    if i < |p.middlewares| {
      BehaveMarks(p, i, ctx, [], trace, [Started(i)], i);
    }
  }

  lemma {:induction false} BehaveMarks(p: Chain, i: nat, ctx: Context, history: seq<Outcome>, trace: seq<Entry>,
                                       log: seq<Event>, origin: nat)
    requires Finite(p) && i < |p.middlewares| == |trace|
    requires history != [] && !history[|history| - 1].Responded? ==>
      && i <= origin <= |trace|
      && forall j :: i < j <= origin && j < |trace| ==> Records(trace[j], history[|history| - 1])
    ensures var r := Behave(p, i, ctx, history, trace, log, origin);
      !r.outcome.Responded? ==>
        && i <= r.origin <= |trace|
        && forall j :: i < j <= r.origin && j < |trace| ==> Records(r.trace[j], r.outcome)
    decreases |p.middlewares| - i, 0, p.middlewares[i].calls(ctx) - |history|
  {
    match p.middlewares[i].act(ctx, history)
    case Forward(next) =>
      var down := Call(p, i + 1, next, trace);
      ExceptionMarks(p, i + 1, next, trace);
      BehaveMarks(p, i, ctx, history + [down.outcome], down.trace, log + down.log, down.origin);
    case _ =>
  }

  /** A short-circuit nobody catches rejects every layer down to the one that raised it, with its error
      code; any other exception nobody catches marks them errored; and the caller gets the
      short-circuit's response, or an internal error. */
  lemma UncaughtException(p: Chain, ctx: Context, correlationId: string)
    requires Finite(p) && !Call(p, 0, ctx, FreshTrace(p, correlationId)).outcome.Responded?
    ensures var r := Call(p, 0, ctx, FreshTrace(p, correlationId));
      && (forall j :: 0 <= j <= r.origin && j < |r.trace| ==>
            if r.outcome.Failed? then r.trace[j].verdict == Errored
            else r.trace[j].verdict == Rejected && r.trace[j].errorCode == ErrorCode(r.outcome.response))
      && ResponseOf(r.outcome) == if r.outcome.Failed? then InternalError() else r.outcome.response
  {
    ExceptionMarks(p, 0, ctx, FreshTrace(p, correlationId));
    var r := Call(p, 0, ctx, FreshTrace(p, correlationId));
    forall j | 0 <= j <= r.origin && j < |r.trace| ensures Records(r.trace[j], r.outcome) {
    }
  }

  // ---------------------------------------------------------------- stale error codes

  /** The ends of layer j's calls, in order. */
  function EndsOf(log: seq<Event>, j: nat): seq<Outcome> {
    if log == [] then []
    else
      var rest, last := EndsOf(log[..|log| - 1], j), log[|log| - 1];
      if last.Ended? && last.layer == j then rest + [last.outcome] else rest
  }

  lemma {:induction false} EndsConcat(a: seq<Event>, b: seq<Event>, j: nat)
    ensures EndsOf(a + b, j) == EndsOf(a, j) + EndsOf(b, j)
  {
    if b == [] {
      assert a + b == a;
    } else {
      assert (a + b)[..|a + b| - 1] == a + b[..|b| - 1];
      EndsConcat(a, b[..|b| - 1], j);
    }
  }

  predicate Rejecting(o: Outcome) {
    o.ShortCircuited? || (o.Responded? && "error_code" in o.response)
  }

  function VerdictOf(o: Outcome): Verdict {
    if o.Failed? then Errored else if Rejecting(o) then Rejected else Passed
  }

  /** The error code of the last rejecting one of these ends, `before` if none rejects. */
  function LastCode(ends: seq<Outcome>, before: Value): Value {
    if ends == [] then before
    else if Rejecting(ends[|ends| - 1]) then ErrorCode(ends[|ends| - 1].response)
    else LastCode(ends[..|ends| - 1], before)
  }

  lemma {:induction false} LastCodeConcat(a: seq<Outcome>, b: seq<Outcome>, before: Value)
    ensures LastCode(a + b, before) == LastCode(b, LastCode(a, before))
  {
    if b == [] {
      assert a + b == a;
    } else {
      assert (a + b)[..|a + b| - 1] == a + b[..|b| - 1];
      LastCodeConcat(a, b[..|b| - 1], before);
    }
  }

  /** The entry a layer has after these ends, starting from `before`. */
  ghost predicate EntryAfter(before: Entry, ends: seq<Outcome>, after: Entry) {
    && after.errorCode == LastCode(ends, before.errorCode)
    && after.verdict == if ends == [] then before.verdict else VerdictOf(ends[|ends| - 1])
  }

  ghost predicate TraceAfter(before: seq<Entry>, log: seq<Event>, after: seq<Entry>) {
    |after| == |before| && forall j :: 0 <= j < |before| ==> EntryAfter(before[j], EndsOf(log, j), after[j])
  }

  lemma TraceChain(first: seq<Entry>, a: seq<Event>, second: seq<Entry>, b: seq<Event>, third: seq<Entry>)
    requires TraceAfter(first, a, second) && TraceAfter(second, b, third)
    ensures TraceAfter(first, a + b, third)
  {
    hide EndsOf, LastCode;
    forall j | 0 <= j < |first| ensures EntryAfter(first[j], EndsOf(a + b, j), third[j]) {
      assert EntryAfter(first[j], EndsOf(a, j), second[j]) && EntryAfter(second[j], EndsOf(b, j), third[j]);
      EndsConcat(a, b, j);
      LastCodeConcat(EndsOf(a, j), EndsOf(b, j), first[j].errorCode);
    }
  }

  lemma TraceEnds(trace: seq<Entry>, i: nat, o: Outcome)
    requires i < |trace|
    ensures TraceAfter(trace, [Ended(i, o)], trace[i := Conclude(trace[i], o)])
  {
    var log := [Ended(i, o)];
    assert log[..0] == [];
    assert forall j: nat :: EndsOf(log, j) == if j == i then [o] else [];
    assert LastCode([], trace[i].errorCode) == trace[i].errorCode && [o][..0] == [];
  }

  lemma TraceStarts(trace: seq<Entry>, i: nat)
    ensures TraceAfter(trace, [], trace) && TraceAfter(trace, [Started(i)], trace)
  {
    assert [Started(i)][..0] == [];
  }

  /** A call writes what its log of ends says. */
  lemma {:induction false} CallWrites(p: Chain, i: nat, ctx: Context, trace: seq<Entry>)
    requires Finite(p) && i <= |p.middlewares| == |trace|
    ensures var r := Call(p, i, ctx, trace); TraceAfter(trace, r.log, r.trace)
    decreases |p.middlewares| - i, 1, 0
  {
    hide TraceAfter;
    TraceStarts(trace, i);
    if i < |p.middlewares| {
      var r := Behave(p, i, ctx, [], trace, [Started(i)], i);
      BehaveWrites(p, i, ctx, [], trace, trace, [Started(i)], i);
      TraceEnds(r.trace, i, r.outcome);
      TraceChain(trace, r.log, r.trace, [Ended(i, r.outcome)], r.trace[i := Conclude(r.trace[i], r.outcome)]);
    }
  }

  lemma {:induction false} BehaveWrites(p: Chain, i: nat, ctx: Context, history: seq<Outcome>, start: seq<Entry>, trace: seq<Entry>,
                                        log: seq<Event>, origin: nat)
    requires Finite(p) && i < |p.middlewares| == |trace| && TraceAfter(start, log, trace)
    ensures var r := Behave(p, i, ctx, history, trace, log, origin); TraceAfter(start, r.log, r.trace)
    decreases |p.middlewares| - i, 0, p.middlewares[i].calls(ctx) - |history|
  {
    hide TraceAfter;
    match p.middlewares[i].act(ctx, history)
    case Forward(next) =>
      var down := Call(p, i + 1, next, trace);
      CallWrites(p, i + 1, next, trace);
      TraceChain(start, log, trace, down.log, down.trace);
      BehaveWrites(p, i, ctx, history + [down.outcome], start, down.trace, log + down.log, down.origin);
    case _ =>
  }

  /** After a dispatch the entry of layer j tells of its calls: the verdict is that of the last one, and the
      error code that of the last rejecting one, null if none was rejected. */
  lemma EntryTells(p: Chain, ctx: Context, correlationId: string, j: nat)
    requires Finite(p) && j < |p.middlewares|
    ensures var r := Call(p, 0, ctx, FreshTrace(p, correlationId));
      var ends := EndsOf(r.log, j);
      && r.trace[j].errorCode == LastCode(ends, Null)
      && r.trace[j].verdict == if ends == [] then Skipped else VerdictOf(ends[|ends| - 1])
  {
    var r := Call(p, 0, ctx, FreshTrace(p, correlationId));
    CallWrites(p, 0, ctx, FreshTrace(p, correlationId));
    hide Call;
    assert EntryAfter(FreshTrace(p, correlationId)[j], EndsOf(r.log, j), r.trace[j]);
  }

  /** The last rejecting call of these was number k. */
  ghost predicate LastRejection(ends: seq<Outcome>, k: nat) {
    k < |ends| && Rejecting(ends[k]) && forall l :: k < l < |ends| ==> !Rejecting(ends[l])
  }

  lemma {:induction false} CodeIsLastRejection(ends: seq<Outcome>)
    ensures LastCode(ends, Null) != Null <==> exists k: nat :: LastRejection(ends, k) && ErrorCode(ends[k].response) != Null
  {
    if ends != [] {
      var n := |ends| - 1;
      if Rejecting(ends[n]) {
        assert LastRejection(ends, n);
        assert forall k: nat :: LastRejection(ends, k) ==> k == n;
      } else {
        CodeIsLastRejection(ends[..n]);
        assert forall k: nat :: LastRejection(ends, k) <==> LastRejection(ends[..n], k);
      }
    }
  }

  /** After a dispatch an entry that is not "rejected" carries an error code exactly when the layer was called
      again after a rejection: its last call was not rejected, and its last rejected call had a code. */
  lemma StaleCodeIff(p: Chain, ctx: Context, correlationId: string, j: nat)
    requires Finite(p) && j < |p.middlewares|
    ensures var r := Call(p, 0, ctx, FreshTrace(p, correlationId));
      var ends := EndsOf(r.log, j);
      r.trace[j].verdict != Rejected && r.trace[j].errorCode != Null <==>
        && ends != [] && !Rejecting(ends[|ends| - 1])
        && exists k: nat :: LastRejection(ends, k) && ErrorCode(ends[k].response) != Null
  {
    hide Call, LastCode, EndsOf;
    EntryTells(p, ctx, correlationId, j);
    CodeIsLastRejection(EndsOf(Call(p, 0, ctx, FreshTrace(p, correlationId)).log, j));
  }

  /** No layer forwards more than once. */
  ghost predicate NoRetries(p: Chain) {
    forall mw, ctx, history :: mw in p.middlewares && |history| >= 1 ==> !mw.act(ctx, history).Forward?
  }

  /** Without retries an entry that ended "passed" or "errored" carries no error code. */
  lemma {:induction false} NoStaleCode(p: Chain, i: nat, ctx: Context, trace: seq<Entry>)
    requires Finite(p) && NoRetries(p) && i <= |p.middlewares| == |trace|
    requires forall j :: i <= j < |trace| ==> trace[j].errorCode == Null
    ensures var r := Call(p, i, ctx, trace);
      forall j :: i <= j < |trace| && r.trace[j].verdict != Rejected ==> r.trace[j].errorCode == Null
    decreases |p.middlewares| - i
  {
    if i < |p.middlewares| {
      var mw := p.middlewares[i];
      var action := mw.act(ctx, []);
      if action.Forward? {
        NoStaleCode(p, i + 1, action.ctx, trace);
        var d := CallTouches(p, i + 1, action.ctx, trace);
      }
      ForwardsOnce(p, i, ctx, trace);
      ConcludesOne(p, i, ctx, trace);
      hide Call, Behave, NoRetries, Finite;
    }
  }

  /** Without retries a layer's work leaves the trace as the call below it did. */
  lemma ForwardsOnce(p: Chain, i: nat, ctx: Context, trace: seq<Entry>)
    requires Finite(p) && NoRetries(p) && i < |p.middlewares| == |trace|
    ensures var action := p.middlewares[i].act(ctx, []);
      Behave(p, i, ctx, [], trace, [Started(i)], i).trace == if action.Forward? then Call(p, i + 1, action.ctx, trace).trace else trace
  {
    var action := p.middlewares[i].act(ctx, []);
    if action.Forward? {
      var down := Call(p, i + 1, action.ctx, trace);
      hide Call;
      assert |[] + [down.outcome]| >= 1;
      assert Behave(p, i, ctx, [], trace, [Started(i)], i) == Behave(p, i, ctx, [] + [down.outcome], down.trace, [Started(i)] + down.log, down.origin);
    }
  }

  lemma ConcludesOne(p: Chain, i: nat, ctx: Context, trace: seq<Entry>)
    requires Finite(p) && i < |p.middlewares| == |trace|
    ensures var below, r := Behave(p, i, ctx, [], trace, [Started(i)], i).trace, Call(p, i, ctx, trace).trace;
      && (forall j :: 0 <= j < |trace| && j != i ==> r[j] == below[j])
      && (r[i].verdict == Rejected || r[i].errorCode == below[i].errorCode)
  {
    hide Behave;
  }

  /** A layer that forwards twice, then answers with an empty response. */
  function Retrying(): Middleware {
    Middleware("retry", "interceptor",
      (ctx: Context, history: seq<Outcome>) => if |history| < 2 then Forward(|history|) else Answer(map[]),
      (ctx: Context) => 2)
  }

  /** A layer that answers with an error the first time and without one afterwards. */
  function BusyOnce(): Middleware {
    Middleware("inner", "interceptor",
      (ctx: Context, history: seq<Outcome>) => if ctx == 0 then Answer(map["error_code" := Text("busy")]) else Answer(map[]),
      (ctx: Context) => 0)
  }

  lemma AnswersAtOnce(p: Chain, i: nat, ctx: Context, trace: seq<Entry>, response: Response)
    requires Finite(p) && i < |p.middlewares| == |trace| && p.middlewares[i].act(ctx, []) == Answer(response)
    ensures var r := Call(p, i, ctx, trace);
      r.outcome == Responded(response) && r.trace == trace[i := Conclude(trace[i], Responded(response))]
  {
  }

  lemma ForwardsTwice(p: Chain, trace: seq<Entry>, first: Result, second: Result)
    requires Finite(p) && |p.middlewares| == 2 == |trace| && p.middlewares[0] == Retrying()
    requires first == Call(p, 1, 0, trace) && second == Call(p, 1, 1, first.trace)
    ensures Call(p, 0, 0, trace).trace[1] == second.trace[1]
  {
    var h1, h2 := [first.outcome], [first.outcome, second.outcome];
    var i1, i2 := [Started(0)] + first.log, [Started(0)] + first.log + second.log;
    hide Call;
    assert Behave(p, 0, 0, h2, second.trace, i2, second.origin).trace == second.trace;
    assert h1 + [second.outcome] == h2;
    assert Behave(p, 0, 0, h1, first.trace, i1, first.origin) == Behave(p, 0, 0, h2, second.trace, i2, second.origin);
    assert [] + [first.outcome] == h1;
    assert Behave(p, 0, 0, [], trace, [Started(0)], 0) == Behave(p, 0, 0, h1, first.trace, i1, first.origin);
    CallIsBehave(p, trace);
  }

  lemma CallIsBehave(p: Chain, trace: seq<Entry>)
    requires Finite(p) && |p.middlewares| == 2 == |trace|
    ensures Call(p, 0, 0, trace).trace[1] == Behave(p, 0, 0, [], trace, [Started(0)], 0).trace[1]
  {
  }

  /** With a retry they can: the inner layer is rejected first and passes the second time, and its entry
      keeps the first error code beside the verdict "passed". */
  lemma RetryLeavesCode() returns (p: Chain)
    ensures Finite(p) && |p.middlewares| == 2
    ensures var r := Call(p, 0, 0, FreshTrace(p, "c"));
      r.trace[1].verdict == Passed && r.trace[1].errorCode == Text("busy")
  {
    p := Chain([Retrying(), BusyOnce()], ctx => Responded(map[]));
    assert p.middlewares[0] == Retrying() && p.middlewares[1] == BusyOnce();
    hide Call, Behave;
    var t := FreshTrace(p, "c");
    AnswersAtOnce(p, 1, 0, t, map["error_code" := Text("busy")]);
    var first := Call(p, 1, 0, t);
    AnswersAtOnce(p, 1, 1, first.trace, map[]);
    ForwardsTwice(p, t, first, Call(p, 1, 1, first.trace));
  }
}
