/** Replay protection of the identity verifier: concurrent `verify` calls whose clock readings are taken
    early and whose prune-check-insert sections run later, in any order. */
module Verifier {

  datatype Request = Request(agentId: string, nonce: string, timestamp: real)

  /** What the credential registry answers. */
  datatype Credential = Unknown | Known(revoked: bool, signatureValid: bool)

  datatype Verdict = Accepted | Malformed | UnknownAgent | Revoked | BadSignature | ReplayDetected

  type Cache = map<string, real>

  // ---------------------------------------------------------------- the locked section

  /** Entries seen before now - window are dropped. */
  function Prune(cache: Cache, now: real, window: real): Cache {
    map n | n in cache && cache[n] >= now - window :: cache[n]
  }

  /** Prune, refuse a nonce still present, otherwise insert it. */
  function CheckAndInsert(cache: Cache, nonce: string, now: real, window: real): (Cache, bool) {
    var pruned := Prune(cache, now, window);
    if nonce in pruned then (pruned, false) else (pruned[nonce := now], true)
  }

  /** The checks made before any await. */
  function Screen(request: Request, now: real, window: real): (r: Verdict)
    ensures r == Accepted <==> request.agentId != "" && request.nonce != ""
                               && request.timestamp - window <= now <= request.timestamp + window
    ensures r in {Accepted, Malformed}
  {
    var age := if now >= request.timestamp then now - request.timestamp else request.timestamp - now;
    if request.agentId == "" || request.nonce == "" || age > window then Malformed else Accepted
  }

  /** The checks made between the awaits. */
  function Authenticate(credential: Credential): Verdict {
    match credential
    case Unknown => UnknownAgent
    case Known(revoked, signatureValid) => if revoked then Revoked else if !signatureValid then BadSignature else Accepted
  }

  /** A whole call that nothing interleaves with. */
  function VerifyAlone(cache: Cache, request: Request, now: real, credential: Credential, window: real): (Cache, Verdict) {
    var screened, authenticated := Screen(request, now, window), Authenticate(credential);
    if screened != Accepted then (cache, screened)
    else if authenticated != Accepted then (cache, authenticated)
    else
      var (cache', inserted) := CheckAndInsert(cache, request.nonce, now, window);
      (cache', if inserted then Accepted else ReplayDetected)
  }

  /** A request that passes the screen and authenticates, whose nonce is still held at this reading. */
  predicate Replayed(cache: Cache, request: Request, now: real, credential: Credential, window: real) {
    && Screen(request, now, window) == Accepted
    && Authenticate(credential) == Accepted
    && request.nonce in Prune(cache, now, window)
  }

  /** A refused call leaves the cache as it is exactly when its request is not replayed or no entry has
      expired at its reading. */
  lemma RefusalKeepsCacheIff(cache: Cache, request: Request, now: real, credential: Credential, window: real)
    ensures var (cache', verdict) := VerifyAlone(cache, request, now, credential, window);
      && (verdict == ReplayDetected <==> Replayed(cache, request, now, credential, window))
      && (verdict != Accepted ==> (cache' == cache <==>
            !Replayed(cache, request, now, credential, window) || forall n :: n in cache ==> cache[n] >= now - window))
  {
    var (cache', verdict) := VerifyAlone(cache, request, now, credential, window);
    if verdict == ReplayDetected {
      assert cache' == Prune(cache, now, window);
      if n :| n in cache && cache[n] < now - window {
        assert n !in cache';
      } else {
        assert Prune(cache, now, window) == cache;
      }
    }
  }

  /** A replayed request whose refusal drops the entry of another one. */
  lemma RefusalDropsEntry(window: real) returns (cache: Cache, request: Request, now: real)
    requires window >= 0.0
    ensures var (cache', verdict) := VerifyAlone(cache, request, now, Known(false, true), window);
      verdict == ReplayDetected && "old" in cache && "old" !in cache'
  {
    now := window + 1.0;
    cache := map["old" := 0.0, "n" := now];
    request := Request("a", "n", now);
    assert "n" in Prune(cache, now, window);
  }

  /** The verdict in the documented order of checks, replay before signature. */
  function DocumentedVerdict(cache: Cache, request: Request, now: real, credential: Credential, window: real): Verdict {
    if Screen(request, now, window) != Accepted then Malformed
    else if credential == Unknown then UnknownAgent
    else if credential.revoked then Revoked
    else if request.nonce in Prune(cache, now, window) then ReplayDetected
    else if !credential.signatureValid then BadSignature else Accepted
  }

  /** The verdict is the documented one unless a replayed request carries a bad signature. */
  lemma VerdictAsDocumentedIff(cache: Cache, request: Request, now: real, credential: Credential, window: real)
    ensures VerifyAlone(cache, request, now, credential, window).1 == DocumentedVerdict(cache, request, now, credential, window) <==>
      !(Screen(request, now, window) == Accepted && credential == Known(false, false) && request.nonce in Prune(cache, now, window))
  {
  }

  class IdentityVerifier {
    const replayWindow: real
    var seenNonces: Cache

    constructor (replayWindow: real)
      ensures this.replayWindow == replayWindow && seenNonces == map[]
    {
      this.replayWindow := replayWindow;
      seenNonces := map[];
    }

    /** Delete the expired entries. */
    method PruneReplayCache(now: real)
      modifies this
      ensures seenNonces == Prune(old(seenNonces), now, replayWindow)
    {
      var cutoff := now - replayWindow;
      var expired := set n | n in seenNonces && seenNonces[n] < cutoff;
      ghost var all := expired;
      while expired != {}
        invariant expired <= all
        invariant seenNonces == map n | n in old(seenNonces) && n !in all - expired :: old(seenNonces)[n]
        decreases expired
      {
        var n :| n in expired;
        seenNonces := map m | m in seenNonces && m != n :: seenNonces[m];
        expired := expired - {n};
      }
    }

    method CheckAndInsertNonce(nonce: string, now: real) returns (inserted: bool)
      modifies this
      ensures (seenNonces, inserted) == CheckAndInsert(old(seenNonces), nonce, now, replayWindow)
    {
      PruneReplayCache(now);
      if nonce in seenNonces {
        return false;
      }
      seenNonces := seenNonces[nonce := now];
      return true;
    }

    /** A call that nothing interleaves with. A refused call adds no nonce; only a replay refusal may
        have dropped expired ones. */
    method Verify(request: Request, now: real, credential: Credential) returns (verdict: Verdict)
      modifies this
      ensures verdict == Malformed <==> Screen(request, now, replayWindow) != Accepted
      ensures verdict != Malformed ==>
        && (verdict == UnknownAgent <==> credential == Unknown)
        && (verdict == Revoked <==> credential.Known? && credential.revoked)
        && (verdict == BadSignature <==> credential == Known(false, false))
      ensures verdict == Accepted ==> request.nonce in seenNonces && seenNonces[request.nonce] == now
      ensures verdict !in {Accepted, ReplayDetected} ==> seenNonces == old(seenNonces)
      ensures verdict == ReplayDetected ==> seenNonces == Prune(old(seenNonces), now, replayWindow) && request.nonce in seenNonces
      ensures (seenNonces, verdict) == VerifyAlone(old(seenNonces), request, now, credential, replayWindow)
    {
      verdict := Screen(request, now, replayWindow);
      if verdict != Accepted {
        return;
      }
      verdict := Authenticate(credential);
      if verdict != Accepted {
        return;
      }
      var inserted := CheckAndInsertNonce(request.nonce, now);
      verdict := if inserted then Accepted else ReplayDetected;
    }
  }

  // ---------------------------------------------------------------- many calls, interleaved

  /** Where one call stands: not begun, holding a clock reading while it awaits the registry, waiting
      for the lock, or finished. */
  datatype Phase = Idle | Looking(now: real) | AtLock(now: real) | Done(verdict: Verdict)

  /** One executed locked section. */
  datatype Section = Section(call: nat, nonce: string, now: real, inserted: bool)

  datatype System = System(phases: seq<Phase>, cache: Cache, sections: seq<Section>)

  /** One small step of one call: it reads the clock and screens the request; or its registry lookup
      returns; or it runs its locked section. */
  datatype StepKind = Begin(clock: real) | Resolve(credential: Credential) | Lock

  datatype Move = Move(call: nat, kind: StepKind)

  predicate Enabled(requests: seq<Request>, s: System, move: Move) {
    && move.call < |s.phases| == |requests|
    && match move.kind
       case Begin(_) => s.phases[move.call].Idle?
       case Resolve(_) => s.phases[move.call].Looking?
       case Lock => s.phases[move.call].AtLock?
  }

  function Next(requests: seq<Request>, window: real, s: System, move: Move): System
    requires Enabled(requests, s, move)
  {
    var c, request := move.call, requests[move.call];
    match move.kind
    case Begin(clock) =>
      var verdict := Screen(request, clock, window);
      s.(phases := s.phases[c := if verdict == Accepted then Looking(clock) else Done(verdict)])
    case Resolve(credential) =>
      var verdict := Authenticate(credential);
      s.(phases := s.phases[c := if verdict == Accepted then AtLock(s.phases[c].now) else Done(verdict)])
    case Lock =>
      var now := s.phases[c].now;
      var (cache, inserted) := CheckAndInsert(s.cache, request.nonce, now, window);
      System(s.phases[c := Done(if inserted then Accepted else ReplayDetected)], cache,
             s.sections + [Section(c, request.nonce, now, inserted)])
  }

  function Start(requests: seq<Request>): System {
    System(seq(|requests|, i => Idle), map[], [])
  }

  /** The states a run of moves passes through, each move enabled where it is made. */
  ghost predicate Run(requests: seq<Request>, window: real, moves: seq<Move>, states: seq<System>) {
    && |states| == |moves| + 1
    && states[0] == Start(requests)
    && forall i :: 0 <= i < |moves| ==>
         Enabled(requests, states[i], moves[i]) && states[i + 1] == Next(requests, window, states[i], moves[i])
  }

  // ---------------------------------------------------------------- what the cache holds

  /** Some section of `sections[i + 1..upto]` ran with a reading past now_i + window. */
  ghost predicate Expired(sections: seq<Section>, window: real, i: nat, upto: nat) {
    exists k :: i < k < upto && k < |sections| && i < |sections| && sections[k].now > sections[i].now + window
  }

  /** An accepted nonce is in the cache exactly until a later section's reading exceeds its own by more
      than the window. */
  ghost predicate CacheIs(cache: Cache, sections: seq<Section>, window: real) {
    && (forall n :: n in cache ==> exists i :: Holds(cache, sections, window, i, n))
    && (forall i :: 0 <= i < |sections| && sections[i].inserted && !Expired(sections, window, i, |sections|) ==>
         sections[i].nonce in cache && cache[sections[i].nonce] == sections[i].now)
  }

  ghost predicate Holds(cache: Cache, sections: seq<Section>, window: real, i: nat, n: string) {
    && i < |sections| && sections[i].inserted && sections[i].nonce == n && n in cache && cache[n] == sections[i].now
    && !Expired(sections, window, i, |sections|)
  }

  /** A section inserted its nonce exactly when every earlier insertion of it had expired by then, the
      section's own reading counted. */
  ghost predicate Explained(sections: seq<Section>, window: real, j: nat)
    requires j < |sections|
  {
    sections[j].inserted <==>
      forall i :: 0 <= i < j && sections[i].inserted && sections[i].nonce == sections[j].nonce ==> Expired(sections, window, i, j + 1)
  }

  lemma ExpiredNext(sections: seq<Section>, next: Section, window: real, i: nat)
    requires i < |sections|
    ensures Expired(sections + [next], window, i, |sections| + 1)
      <==> Expired(sections, window, i, |sections|) || next.now > sections[i].now + window
  {
    var longer := sections + [next];
    if Expired(sections, window, i, |sections|) {
      var k :| i < k < |sections| && sections[k].now > sections[i].now + window;
      assert longer[k] == sections[k];
    }
    if next.now > sections[i].now + window {
      assert longer[|sections|] == next;
    }
  }

  lemma NotYetExpired(sections: seq<Section>, window: real)
    requires sections != []
    ensures !Expired(sections, window, |sections| - 1, |sections|)
  {
  }

  /** Every entry left by a locked section is held by an insertion, possibly its own. */
  lemma EntriesExplained(cache: Cache, sections: seq<Section>, window: real, last: Section, cache': Cache)
    requires CacheIs(cache, sections, window)
    requires (cache', last.inserted) == CheckAndInsert(cache, last.nonce, last.now, window)
    ensures forall x :: x in cache' ==> exists i :: Holds(cache', sections + [last], window, i, x)
  {
    var n, sections' := |sections|, sections + [last];
    NotYetExpired(sections', window);
    forall x | x in cache' ensures exists i :: Holds(cache', sections', window, i, x) {
      if last.inserted && x == last.nonce {
        assert Holds(cache', sections', window, n, x);
      } else {
        var i: nat :| Holds(cache, sections, window, i, x);
        ExpiredNext(sections, last, window, i);
        assert sections'[i] == sections[i];
        assert Holds(cache', sections', window, i, x);
      }
    }
  }

  /** One locked section keeps the description of the cache and is itself explained. */
  lemma SectionStep(cache: Cache, sections: seq<Section>, window: real, call: nat, nonce: string, now: real)
    requires CacheIs(cache, sections, window)
    ensures var (cache', inserted) := CheckAndInsert(cache, nonce, now, window);
      var sections' := sections + [Section(call, nonce, now, inserted)];
      CacheIs(cache', sections', window) && Explained(sections', window, |sections|)
  {
    var (cache', inserted) := CheckAndInsert(cache, nonce, now, window);
    var last := Section(call, nonce, now, inserted);
    var sections' := sections + [last];
    var n := |sections|;
    forall i | 0 <= i < n
      ensures Expired(sections', window, i, n + 1) <==> Expired(sections, window, i, n) || now > sections[i].now + window
    {
      ExpiredNext(sections, last, window, i);
    }
    NotYetExpired(sections', window);
    hide Expired;
    EntriesExplained(cache, sections, window, last, cache');
    forall i | 0 <= i < |sections'| && sections'[i].inserted && !Expired(sections', window, i, |sections'|)
      ensures sections'[i].nonce in cache' && cache'[sections'[i].nonce] == sections'[i].now
    {
      if i < n {
        assert sections'[i] == sections[i];
        assert sections[i].nonce in Prune(cache, now, window);
      }
    }
    if !inserted {
      var i: nat :| Holds(cache, sections, window, i, nonce);
      assert sections'[i] == sections[i];
    } else {
      forall i | 0 <= i < n && sections'[i].inserted && sections'[i].nonce == nonce ensures Expired(sections', window, i, n + 1) {
        assert sections'[i] == sections[i];
      }
    }
  }

  /** A prefix of the sections explains as well as the whole. */
  lemma ExplainedPrefix(sections: seq<Section>, next: Section, window: real, j: nat)
    requires j < |sections| && Explained(sections, window, j)
    ensures Explained(sections + [next], window, j)
  {
    var longer := sections + [next];
    forall i {:trigger Expired(longer, window, i, j + 1)} | 0 <= i < j
      ensures Expired(longer, window, i, j + 1) <==> Expired(sections, window, i, j + 1)
    {
      if Expired(sections, window, i, j + 1) {
        var k :| i < k < j + 1 && sections[k].now > sections[i].now + window;
        assert longer[k] == sections[k];
      }
    }
    assert longer[j] == sections[j] && forall i :: 0 <= i < j ==> longer[i] == sections[i];
  }

  /** In every interleaving, each locked section accepts its nonce exactly when every earlier acceptance
      of it is followed, up to and including this section, by a reading more than the window later. */
  lemma {:induction false} EverySectionExplained(requests: seq<Request>, window: real, moves: seq<Move>, states: seq<System>)
    requires Run(requests, window, moves, states)
    ensures var s := states[|moves|];
      CacheIs(s.cache, s.sections, window) && forall j :: 0 <= j < |s.sections| ==> Explained(s.sections, window, j)
  {
    if moves != [] {
      var n := |moves| - 1;
      assert Run(requests, window, moves[..n], states[..n + 1]);
      EverySectionExplained(requests, window, moves[..n], states[..n + 1]);
      var before, after, move := states[n], states[n + 1], moves[n];
      if move.kind.Lock? {
        var now, nonce := before.phases[move.call].now, requests[move.call].nonce;
        SectionStep(before.cache, before.sections, window, move.call, nonce, now);
        var last := after.sections[|before.sections|];
        forall j | 0 <= j < |before.sections| ensures Explained(after.sections, window, j) {
          ExplainedPrefix(before.sections, last, window, j);
        }
      }
    }
  }

  /** A nonce accepted with reading t is accepted again only if a section run after it, at the latest the
      second acceptance itself, had a reading greater than t + window. */
  lemma ReplayNeedsExpiry(requests: seq<Request>, window: real, moves: seq<Move>, states: seq<System>, i: nat, j: nat)
    requires Run(requests, window, moves, states)
    requires var sections := states[|moves|].sections;
      i < j < |sections| && sections[i].inserted && sections[j].inserted && sections[i].nonce == sections[j].nonce
    ensures var sections := states[|moves|].sections;
      exists k :: i < k <= j && sections[k].now > sections[i].now + window
  {
    EverySectionExplained(requests, window, moves, states);
    var sections := states[|moves|].sections;
    assert Explained(sections, window, j);
    var k :| i < k < j + 1 && sections[k].now > sections[i].now + window;
  }

  /** A move that does not end in acceptance adds no nonce to the cache. */
  lemma FailureAddsNothing(requests: seq<Request>, window: real, s: System, move: Move)
    requires Enabled(requests, s, move)
    requires Next(requests, window, s, move).phases[move.call] != Done(Accepted)
    ensures Next(requests, window, s, move).cache.Keys <= s.cache.Keys
  {
  }

  // ---------------------------------------------------------------- whose sections they are

  /** A section belongs to a call whose request passed the screen with the section's reading. */
  ghost predicate Screened(requests: seq<Request>, window: real, section: Section) {
    && section.call < |requests| && section.nonce == requests[section.call].nonce
    && Screen(requests[section.call], section.now, window) == Accepted
  }

  /** A call under way has passed the screen with the reading it holds. */
  ghost predicate HoldsReading(requests: seq<Request>, window: real, s: System, c: nat) {
    && (c < |s.phases| == |requests| && s.phases[c].Looking? ==> Screen(requests[c], s.phases[c].now, window) == Accepted)
    && (c < |s.phases| == |requests| && s.phases[c].AtLock? ==> Screen(requests[c], s.phases[c].now, window) == Accepted)
  }

  /** The accepted calls are those with a section that inserted. */
  ghost predicate AcceptedBySection(s: System, c: nat) {
    c < |s.phases| && s.phases[c] == Done(Accepted) ==>
      exists k :: 0 <= k < |s.sections| && s.sections[k].call == c && s.sections[k].inserted
  }

  ghost predicate Attributed(requests: seq<Request>, window: real, s: System) {
    && |s.phases| == |requests|
    && (forall k :: 0 <= k < |s.sections| ==> Screened(requests, window, s.sections[k]))
    && (forall c: nat :: HoldsReading(requests, window, s, c))
    && (forall c: nat :: AcceptedBySection(s, c))
  }

  lemma NextAttributed(requests: seq<Request>, window: real, s: System, move: Move)
    requires Attributed(requests, window, s) && Enabled(requests, s, move)
    ensures Attributed(requests, window, Next(requests, window, s, move))
  {
    hide Screen, Prune;
    var s' := Next(requests, window, s, move);
    assert HoldsReading(requests, window, s, move.call);
    forall k | 0 <= k < |s'.sections| ensures Screened(requests, window, s'.sections[k]) {
      if k < |s.sections| {
        assert s'.sections[k] == s.sections[k];
      }
    }
    forall c: nat ensures HoldsReading(requests, window, s', c) {
      assert HoldsReading(requests, window, s, c);
    }
    forall c: nat ensures AcceptedBySection(s', c) {
      assert AcceptedBySection(s, c);
      if c < |s'.phases| && s'.phases[c] == Done(Accepted) {
        if move.kind.Lock? && c == move.call {
          assert s'.sections[|s.sections|].call == c && s'.sections[|s.sections|].inserted;
        } else if c != move.call {
          var k :| 0 <= k < |s.sections| && s.sections[k].call == c && s.sections[k].inserted;
          assert s'.sections[k] == s.sections[k];
        }
      }
    }
  }

  /** In every run every section is that of a screened call, with its nonce and its reading. */
  lemma {:induction false} RunAttributed(requests: seq<Request>, window: real, moves: seq<Move>, states: seq<System>)
    requires Run(requests, window, moves, states)
    ensures Attributed(requests, window, states[|moves|])
  {
    if moves != [] {
      var n := |moves| - 1;
      assert Run(requests, window, moves[..n], states[..n + 1]);
      RunAttributed(requests, window, moves[..n], states[..n + 1]);
      hide Attributed, Next, Enabled;
      NextAttributed(requests, window, states[n], moves[n]);
    }
  }

  // ---------------------------------------------------------------- the same request presented twice

  /** The sections ran in the order of their readings. */
  ghost predicate ClockMonotone(sections: seq<Section>) {
    forall i, j :: 0 <= i < j < |sections| ==> sections[i].now <= sections[j].now
  }

  /** In a run whose sections are in the order of their readings, a request that is not dated after its
      first acceptance is not accepted again. */
  lemma NoSecondAcceptance(requests: seq<Request>, window: real, moves: seq<Move>, states: seq<System>, i: nat, j: nat)
    requires Run(requests, window, moves, states) && ClockMonotone(states[|moves|].sections)
    requires i < j < |states[|moves|].sections| && states[|moves|].sections[i].inserted
    requires states[|moves|].sections[i].call < |requests| && states[|moves|].sections[j].call < |requests|
    requires requests[states[|moves|].sections[i].call] == requests[states[|moves|].sections[j].call]
    requires requests[states[|moves|].sections[i].call].timestamp <= states[|moves|].sections[i].now
    ensures !states[|moves|].sections[j].inserted
  {
    RunLength(requests, window, moves, states);
    hide Run;
    EverySectionExplained(requests, window, moves, states);
    RunAttributed(requests, window, moves, states);
    var sections := states[|moves|].sections;
    assert Screened(requests, window, sections[i]) && Screened(requests, window, sections[j]);
    assert Explained(sections, window, j);
    StillInWindow(sections, window, i, j);
  }

  lemma StillInWindow(sections: seq<Section>, window: real, i: nat, j: nat)
    requires ClockMonotone(sections) && i < j < |sections| && sections[j].now <= sections[i].now + window
    ensures !Expired(sections, window, i, j + 1)
  {
    forall k | i < k < j + 1 ensures sections[k].now <= sections[i].now + window {
      assert sections[k].now <= sections[j].now;
    }
  }

  /** Nothing comes between the moves of one call. */
  ghost predicate Atomic(moves: seq<Move>) {
    forall i :: 0 <= i < |moves| && !moves[i].kind.Begin? ==> i > 0 && moves[i - 1].call == moves[i].call
  }

  /** The clock, read at the beginning of each call, never goes back. */
  ghost predicate ClockNeverBack(moves: seq<Move>) {
    forall i, j :: 0 <= i < j < |moves| && moves[i].kind.Begin? && moves[j].kind.Begin? ==> moves[i].kind.clock <= moves[j].kind.clock
  }

  /** The latest reading of the clock. */
  ghost predicate LatestReading(moves: seq<Move>, reading: real) {
    exists i :: 0 <= i < |moves| && ReadAt(moves, i, reading) && forall j :: i < j < |moves| ==> !moves[j].kind.Begin?
  }

  ghost predicate ReadAt(moves: seq<Move>, i: nat, reading: real) {
    i < |moves| && moves[i].kind.Begin? && moves[i].kind.clock == reading
  }

  /** The call that moved last holds the latest reading, and no section has a later one. */
  ghost predicate InStep(moves: seq<Move>, s: System) {
    && ClockMonotone(s.sections)
    && (moves == [] ==> s.sections == [])
    && (moves != [] ==> exists reading :: LatestReading(moves, reading) && UpTo(moves, s, reading))
  }

  ghost predicate UpTo(moves: seq<Move>, s: System, reading: real)
    requires moves != []
  {
    && (forall k :: 0 <= k < |s.sections| ==> s.sections[k].now <= reading)
    && var c := moves[|moves| - 1].call;
      && (c < |s.phases| && s.phases[c].Looking? ==> s.phases[c].now == reading)
      && (c < |s.phases| && s.phases[c].AtLock? ==> s.phases[c].now == reading)
  }

  lemma NextInStep(requests: seq<Request>, window: real, moves: seq<Move>, s: System, move: Move)
    requires InStep(moves, s) && Enabled(requests, s, move)
    requires Atomic(moves + [move]) && ClockNeverBack(moves + [move])
    ensures InStep(moves + [move], Next(requests, window, s, move))
  {
    hide Screen, Prune;
    var moves', s' := moves + [move], Next(requests, window, s, move);
    assert moves'[|moves|] == move;
    if move.kind.Begin? {
      var reading := move.kind.clock;
      assert ReadAt(moves', |moves|, reading);
      if moves != [] {
        var last :| LatestReading(moves, last) && UpTo(moves, s, last);
        var i: nat :| i < |moves| && ReadAt(moves, i, last);
        assert moves'[i] == moves[i];
      }
      assert LatestReading(moves', reading) && UpTo(moves', s', reading);
    } else {
      assert moves'[|moves| - 1] == moves[|moves| - 1];
      var reading :| LatestReading(moves, reading) && UpTo(moves, s, reading);
      var i: nat :| i < |moves| && ReadAt(moves, i, reading) && forall j :: i < j < |moves| ==> !moves[j].kind.Begin?;
      assert ReadAt(moves', i, reading);
      assert LatestReading(moves', reading) && UpTo(moves', s', reading);
    }
  }

  /** Atomic calls with a clock that never goes back run their sections in the order of their readings. */
  lemma {:induction false} AtomicCallsInOrder(requests: seq<Request>, window: real, moves: seq<Move>, states: seq<System>)
    requires Run(requests, window, moves, states) && Atomic(moves) && ClockNeverBack(moves)
    ensures InStep(moves, states[|moves|])
  {
    if moves != [] {
      var n := |moves| - 1;
      assert Run(requests, window, moves[..n], states[..n + 1]);
      assert moves == moves[..n] + [moves[n]];
      AtomicCallsInOrder(requests, window, moves[..n], states[..n + 1]);
      hide InStep, Next, Enabled;
      NextInStep(requests, window, moves[..n], states[n], moves[n]);
    }
  }

  /** With atomic calls and a clock that never goes back, two accepted calls for one request mean that it is
      dated after the reading of the first. */
  lemma AcceptedTwiceWasFutureDated(requests: seq<Request>, window: real, moves: seq<Move>, states: seq<System>, a: nat, b: nat)
      returns (first: Section)
    requires Run(requests, window, moves, states) && Atomic(moves) && ClockNeverBack(moves)
    requires a < |requests| && b < |requests| && a != b && requests[a] == requests[b]
    requires a < |states[|moves|].phases| && states[|moves|].phases[a] == Done(Accepted)
    requires b < |states[|moves|].phases| && states[|moves|].phases[b] == Done(Accepted)
    ensures first in states[|moves|].sections && first.call in {a, b} && first.inserted
    ensures requests[a].timestamp > first.now
  {
    RunLength(requests, window, moves, states);
    hide Run;
    RunAttributed(requests, window, moves, states);
    AtomicCallsInOrder(requests, window, moves, states);
    var sections := states[|moves|].sections;
    assert AcceptedBySection(states[|moves|], a) && AcceptedBySection(states[|moves|], b);
    var i: nat :| i < |sections| && sections[i].call == a && sections[i].inserted;
    var j: nat :| j < |sections| && sections[j].call == b && sections[j].inserted;
    first := sections[if i < j then i else j];
    if requests[a].timestamp <= first.now {
      if i < j {
        NoSecondAcceptance(requests, window, moves, states, i, j);
      } else {
        NoSecondAcceptance(requests, window, moves, states, j, i);
      }
    }
  }

  /** A run with one more move. */
  function Extended(requests: seq<Request>, window: real, states: seq<System>, move: Move): seq<System>
    requires states != [] && Enabled(requests, states[|states| - 1], move)
  {
    states + [Next(requests, window, states[|states| - 1], move)]
  }

  lemma RunExtends(requests: seq<Request>, window: real, moves: seq<Move>, states: seq<System>, move: Move)
    requires Run(requests, window, moves, states) && Enabled(requests, states[|moves|], move)
    ensures Run(requests, window, moves + [move], Extended(requests, window, states, move))
  {
    var moves', states' := moves + [move], Extended(requests, window, states, move);
    hide Next, Enabled, Start;
    forall i | 0 <= i < |moves'|
      ensures Enabled(requests, states'[i], moves'[i]) && states'[i + 1] == Next(requests, window, states'[i], moves'[i])
    {
      if i < |moves| {
        assert moves'[i] == moves[i] && states'[i] == states[i] && states'[i + 1] == states[i + 1];
      }
    }
  }

  /** A call that reads the clock at `clock`, passes all checks and then waits for the lock. */
  lemma ReachesLock(requests: seq<Request>, window: real, moves: seq<Move>, states: seq<System>, c: nat, clock: real)
    returns (states': seq<System>)
    requires Run(requests, window, moves, states) && c < |requests| == |states[|moves|].phases|
    requires states[|moves|].phases[c].Idle? && Screen(requests[c], clock, window) == Accepted
    ensures Run(requests, window, moves + [Move(c, Begin(clock)), Move(c, Resolve(Known(false, true)))], states')
    ensures states'[|moves| + 2] == states[|moves|].(phases := states[|moves|].phases[c := AtLock(clock)])
  {
    hide Run, Screen;
    var begin, resolve := Move(c, Begin(clock)), Move(c, Resolve(Known(false, true)));
    RunLength(requests, window, moves, states);
    RunExtends(requests, window, moves, states, begin);
    var between := Extended(requests, window, states, begin);
    RunExtends(requests, window, moves + [begin], between, resolve);
    states' := Extended(requests, window, between, resolve);
    assert moves + [begin] + [resolve] == moves + [begin, resolve];
  }

  lemma RunLength(requests: seq<Request>, window: real, moves: seq<Move>, states: seq<System>)
    requires Run(requests, window, moves, states)
    ensures |states| == |moves| + 1
  {
  }

  /** Interleaving breaks the guarantee for requests that are not future-dated: a second call reads the
      clock in time, waits, and a third call with a later reading prunes the first acceptance. */
  lemma StaleReadingReplay(window: real) returns (requests: seq<Request>, moves: seq<Move>, states: seq<System>)
    requires window >= 0.0
    ensures Run(requests, window, moves, states)
    ensures |requests| == 3 && requests[0] == requests[1] && requests[0].timestamp <= 0.0
    ensures var s := states[|moves|];
      |s.phases| == 3 && s.phases[0] == Done(Accepted) && s.phases[1] == Done(Accepted)
    ensures |moves| == 9 && moves[0] == Move(0, Begin(0.0)) && moves[3] == Move(1, Begin(window)) && moves[5] == Move(2, Begin(window + 1.0))
  {
    hide Run;
    var again := Request("a", "n", 0.0);
    requests := [again, again, Request("b", "m", window + 1.0)];
    NoMovesRun(requests, window);
    moves, states := [], [Start(requests)];
    states := ReachesLock(requests, window, moves, states, 0, 0.0);
    moves := moves + [Move(0, Begin(0.0)), Move(0, Resolve(Known(false, true)))];
    states := Locks(requests, window, moves, states, 0);
    moves := moves + [Move(0, Lock)];
    states := ReachesLock(requests, window, moves, states, 1, window);
    moves := moves + [Move(1, Begin(window)), Move(1, Resolve(Known(false, true)))];
    states := ReachesLock(requests, window, moves, states, 2, window + 1.0);
    moves := moves + [Move(2, Begin(window + 1.0)), Move(2, Resolve(Known(false, true)))];
    states := Locks(requests, window, moves, states, 2);
    moves := moves + [Move(2, Lock)];
    states := Locks(requests, window, moves, states, 1);
    moves := moves + [Move(1, Lock)];
  }

  lemma NoMovesRun(requests: seq<Request>, window: real)
    ensures Run(requests, window, [], [Start(requests)])
  {
  }

  lemma Locks(requests: seq<Request>, window: real, moves: seq<Move>, states: seq<System>, c: nat) returns (states': seq<System>)
    requires Run(requests, window, moves, states) && c < |requests| == |states[|moves|].phases|
    requires states[|moves|].phases[c].AtLock?
    ensures Run(requests, window, moves + [Move(c, Lock)], states')
    ensures states'[|moves| + 1] == Next(requests, window, states[|moves|], Move(c, Lock))
  {
    hide Run, Next;
    RunLength(requests, window, moves, states);
    RunExtends(requests, window, moves, states, Move(c, Lock));
    states' := Extended(requests, window, states, Move(c, Lock));
  }

  /** Some run of atomic calls with a clock that never goes back accepts the request twice, the first time
      with this reading. */
  ghost predicate Replayable(request: Request, window: real, reading: real) {
    exists requests, moves, states, i: nat, j: nat :: TwiceAccepted(request, window, reading, requests, moves, states, i, j)
  }

  ghost predicate TwiceAccepted(request: Request, window: real, reading: real, requests: seq<Request>, moves: seq<Move>,
                                states: seq<System>, i: nat, j: nat) {
    && Run(requests, window, moves, states) && Atomic(moves) && ClockNeverBack(moves)
    && var sections := states[|moves|].sections;
      && i < j < |sections| && sections[i].inserted && sections[j].inserted && sections[i].now == reading
      && sections[i].call < |requests| && requests[sections[i].call] == request
      && sections[j].call < |requests| && requests[sections[j].call] == request
  }

  /** A request that can be accepted with a reading can, in some such run, be accepted a second time exactly
      when it is dated after that reading. */
  lemma FutureDatedIffReplayable(request: Request, window: real, reading: real)
    requires Screen(request, reading, window) == Accepted
    ensures Replayable(request, window, reading) <==> request.timestamp > reading
  {
    if request.timestamp > reading {
      var moves, states := FutureDatedReplay(request, window, reading);
      assert TwiceAccepted(request, window, reading, [request, request], moves, states, 0, 1);
    } else if Replayable(request, window, reading) {
      var requests, moves, states, i: nat, j: nat :| TwiceAccepted(request, window, reading, requests, moves, states, i, j);
      AtomicCallsInOrder(requests, window, moves, states);
      NoSecondAcceptance(requests, window, moves, states, i, j);
    }
  }

  lemma FutureDatedReplay(request: Request, window: real, reading: real) returns (moves: seq<Move>, states: seq<System>)
    requires Screen(request, reading, window) == Accepted && request.timestamp > reading
    ensures TwiceAccepted(request, window, reading, [request, request], moves, states, 0, 1)
  {
    hide Run;
    var requests, later := [request, request], request.timestamp + window;
    NoMovesRun(requests, window);
    moves, states := [], [Start(requests)];
    states := ReachesLock(requests, window, moves, states, 0, reading);
    moves := moves + [Move(0, Begin(reading)), Move(0, Resolve(Known(false, true)))];
    states := Locks(requests, window, moves, states, 0);
    moves := moves + [Move(0, Lock)];
    states := ReachesLock(requests, window, moves, states, 1, later);
    moves := moves + [Move(1, Begin(later)), Move(1, Resolve(Known(false, true)))];
    states := Locks(requests, window, moves, states, 1);
    moves := moves + [Move(1, Lock)];
  }
}
