/** What one migration run that does not crash makes of a database, for any target and any configuration. */
module MigrationTargets {
  import opened Options
  import opened Migration

  /** `a` is older: it is a beginning of `b`, or has the smaller number where they first differ. */
  ghost predicate FirstDiffers(a: Version, b: Version) {
    exists k :: 0 <= k <= |a| && k < |b| && a[..k] == b[..k] && (k == |a| || a[k] < b[k])
  }

  lemma {:induction false} OlderIff(a: Version, b: Version)
    ensures Older(a, b) <==> FirstDiffers(a, b)
  {
    if b != [] {
      if a == [] || a[0] < b[0] {
        assert a[..0] == b[..0];
      } else if FirstDiffers(a, b) {
        DiffersLater(a, b);
        OlderIff(a[1..], b[1..]);
      } else if a[0] == b[0] {
        OlderIff(a[1..], b[1..]);
        if FirstDiffers(a[1..], b[1..]) {
          DiffersHere(a, b);
        }
      }
    }
  }

  lemma DiffersLater(a: Version, b: Version)
    requires a != [] && b != [] && a[0] >= b[0] && FirstDiffers(a, b)
    ensures a[0] == b[0] && FirstDiffers(a[1..], b[1..])
  {
    var k :| 0 <= k <= |a| && k < |b| && a[..k] == b[..k] && (k == |a| || a[k] < b[k]);
    assert k > 0;
    assert a[..k][0] == b[..k][0];
    assert a[1..][..k - 1] == a[..k][1..] && b[1..][..k - 1] == b[..k][1..];
  }

  lemma DiffersHere(a: Version, b: Version)
    requires a != [] && b != [] && a[0] == b[0] && FirstDiffers(a[1..], b[1..])
    ensures FirstDiffers(a, b)
  {
    var s, t := a[1..], b[1..];
    var k :| 0 <= k <= |s| && k < |t| && s[..k] == t[..k] && (k == |s| || s[k] < t[k]);
    assert a[..k + 1] == [a[0]] + s[..k];
    assert b[..k + 1] == [b[0]] + t[..k];
  }

  /** `end` is `db` after steps i to j - 1: their changes are there, the scripts of those not found to be there
      already have run, in order, and the version is the one the last of them leads to. */
  ghost predicate StepsMade(c: Config, db: Db, i: nat, j: nat, end: Db, ran: seq<nat>)
    requires i <= j <= |c.chain|
  {
    && end.version == (if i == j then db.version else Some(c.chain[j - 1].target))
    && (forall k :: k in end.present <==> k in db.present || i <= k < j)
    && end.scripts == db.scripts + ran
    && (forall a, b :: 0 <= a < b < |ran| ==> ran[a] < ran[b])
    && (forall k :: k in ran <==> i <= k < j && !(k in c.detected && k in db.present))
  }

  lemma {:induction false} RunStepsMake(c: Config, db: Db, i: nat, j: nat, budget: nat) returns (ran: seq<nat>)
    requires i <= j <= |c.chain| && budget >= 2 * (j - i)
    ensures StepsMade(c, db, i, j, RunSteps(c, db, i, j, budget), ran)
    decreases j - i
  {
    if i == j {
      ran := [];
    } else {
      var next := Applied(c, db, i);
      var rest := RunStepsMake(c, next, i + 1, j, budget - Cost(c, db, i));
      var own := if Cost(c, db, i) == 1 then [] else [i];
      ran := own + rest;
      FirstStep(c, db, i, j, budget);
      StepsJoined(c, db, i, j, RunSteps(c, next, i + 1, j, budget - Cost(c, db, i)), own, rest);
    }
  }

  lemma FirstStep(c: Config, db: Db, i: nat, j: nat, budget: nat)
    requires i < j <= |c.chain| && budget >= 2 * (j - i)
    ensures RunSteps(c, db, i, j, budget) == RunSteps(c, Applied(c, db, i), i + 1, j, budget - Cost(c, db, i))
  {
  }

  lemma StepsJoined(c: Config, db: Db, i: nat, j: nat, end: Db, own: seq<nat>, rest: seq<nat>)
    requires i < j <= |c.chain| && own == if Cost(c, db, i) == 1 then [] else [i]
    requires StepsMade(c, Applied(c, db, i), i + 1, j, end, rest)
    ensures StepsMade(c, db, i, j, end, own + rest)
  {
    assert db.scripts + own + rest == db.scripts + (own + rest);
    assert Applied(c, db, i).scripts == db.scripts + own by {
      assert db.scripts + [] == db.scripts;
    }
    forall k ensures k in own + rest <==> i <= k < j && !(k in c.detected && k in db.present) {
      assert k in own + rest <==> k in own || k in rest;
    }
    forall a, b | 0 <= a < b < |own + rest| ensures (own + rest)[a] < (own + rest)[b] {
      if a < |own| {
        assert (own + rest)[b] in rest;
      }
    }
  }

  /** Beside what `StepsMade` says up to step k - 1, the script of step k may have run without its record. */
  ghost predicate CutShort(c: Config, db: Db, i: nat, k: nat, j: nat, budget: nat, end: Db, ran: seq<nat>, mid: Db)
    requires i <= k <= j <= |c.chain|
  {
    && StepsMade(c, db, i, k, mid, ran)
    && (end == mid || (k < j && end == Db(mid.version, mid.present + {k}, mid.scripts + [k])))
    && (k < j ==> |end.scripts| - |db.scripts| + (k - i) == budget)
    && (k < j && end != mid ==> !(k in c.detected && k in db.present))
  }

  /** Cut short by a crash, the steps have made exactly as many writes as there were, in the same order: each
      step's script, unless its change was found, then its record. */
  lemma {:induction false} StepsCutShort(c: Config, db: Db, i: nat, j: nat, budget: nat) returns (k: nat, ran: seq<nat>, mid: Db)
    requires i <= j <= |c.chain|
    ensures i <= k <= j && CutShort(c, db, i, k, j, budget, RunSteps(c, db, i, j, budget), ran, mid)
    decreases j - i
  {
    if i == j || budget < Cost(c, db, i) {
      k, ran, mid := i, [], db;
      NoSteps(c, db, i);
    } else {
      var next := Applied(c, db, i);
      var rest;
      k, rest, mid := StepsCutShort(c, next, i + 1, j, budget - Cost(c, db, i));
      var own := if Cost(c, db, i) == 1 then [] else [i];
      ran := own + rest;
      CutJoined(c, db, i, k, j, budget, RunSteps(c, next, i + 1, j, budget - Cost(c, db, i)), own, rest, mid);
    }
  }

  lemma NoSteps(c: Config, db: Db, i: nat)
    requires i <= |c.chain|
    ensures StepsMade(c, db, i, i, db, [])
  {
    assert db.scripts + [] == db.scripts;
  }

  lemma CutJoined(c: Config, db: Db, i: nat, k: nat, j: nat, budget: nat, end: Db, own: seq<nat>, rest: seq<nat>, mid: Db)
    requires i < k <= j <= |c.chain| && own == (if Cost(c, db, i) == 1 then [] else [i]) && budget >= Cost(c, db, i)
    requires CutShort(c, Applied(c, db, i), i + 1, k, j, budget - Cost(c, db, i), end, rest, mid)
    ensures CutShort(c, db, i, k, j, budget, end, own + rest, mid)
  {
    hide StepsMade;
    StepsJoined(c, db, i, k, mid, own, rest);
    assert |Applied(c, db, i).scripts| == |db.scripts| + |own|;
  }

  /** The version a run starts from: the recorded one, or the chain's first for an untracked database. */
  ghost predicate StartsAt(c: Config, db: Db, i: nat)
    requires c.chain != []
  {
    && i < |c.chain|
    && if db.version.None? || db.version == Some([0, 0]) then i == 0 else db.version == Some(c.chain[i].source)
  }

  ghost predicate Untracked(db: Db) {
    db.version.None? || db.version == Some([0, 0])
  }

  /** The recorded version; a database without one counts as at version 0.0. */
  ghost predicate IsAt(db: Db, target: Version) {
    db.version == Some(target) || (db.version.None? && target == [0, 0])
  }

  /** What a run with enough writes makes: nothing at the target; only the record, for an untracked database
      with the marker; the steps from where it stands up to the target, if that lies ahead on the chain; and
      nothing otherwise. */
  lemma RunMakes(c: Config, target: Version, db: Db, budget: nat) returns (ran: seq<nat>)
    requires Contiguous(c.chain) && budget >= 2 * |c.chain|
    ensures var end := RunOnce(c, target, db, budget);
      && (IsAt(db, target) ==> end == db)
      && (!IsAt(db, target) && Untracked(db) && c.marker in db.present ==> end == db.(version := Some(target)))
      && (!IsAt(db, target) && !(Untracked(db) && c.marker in db.present) ==>
           && (forall i, j {:trigger StartsAt(c, db, i), LeadsTo(c, target, j)} ::
                 StartsAt(c, db, i) && LeadsTo(c, target, j) && i < j ==> StepsMade(c, db, i, j, end, ran))
           && ((forall i, j :: StartsAt(c, db, i) && LeadsTo(c, target, j) ==> j <= i) ==> end == db))
  {
    hide RunOnce, RunSteps, Contiguous, StepsMade;
    ran := [];
    StartsInChain(c, db);
    if Recorded(db) == target {
      RunStays(c, target, db, budget);
    } else if Recorded(db) == UNTRACKED && c.marker in db.present {
      RunMarks(c, target, db);
    } else {
      var i, j := PlaceOf(c.chain, StartOf(c, db)), FirstAt(c.chain, target, 0);
      OnlyPlaces(c, target, db, i, j);
      if i < j <= |c.chain| {
        assert StartsAt(c, db, i) && LeadsTo(c, target, j);
        RunWalks(c, target, db);
        ran := RunStepsMake(c, db, i, j, budget);
      } else {
        RunStays(c, target, db, budget);
      }
    }
  }

  /** A run that makes steps and crashes, or does not, has made them as far as its writes went; one that only
      records the target does so if it has a write. */
  lemma RunCutShort(c: Config, target: Version, db: Db, budget: nat, i: nat, j: nat) returns (k: nat, ran: seq<nat>, mid: Db)
    requires Contiguous(c.chain) && !IsAt(db, target) && i < j && StartsAt(c, db, i) && LeadsTo(c, target, j)
    ensures Untracked(db) && c.marker in db.present ==>
      RunOnce(c, target, db, budget) == if budget == 0 then db else db.(version := Some(target))
    ensures !(Untracked(db) && c.marker in db.present) ==>
      i <= k <= j <= |c.chain| && CutShort(c, db, i, k, j, budget, RunOnce(c, target, db, budget), ran, mid)
  {
    hide RunOnce, RunSteps, Contiguous, CutShort;
    StartsInChain(c, db);
    if Recorded(db) == UNTRACKED && c.marker in db.present {
      RunMarks(c, target, db);
      k, ran, mid := 0, [], db;
    } else {
      OnlyPlaces(c, target, db, PlaceOf(c.chain, StartOf(c, db)), FirstAt(c.chain, target, 0));
      RunWalks(c, target, db);
      k, ran, mid := StepsCutShort(c, db, i, j, budget);
    }
  }

  /** Step j of the chain starts at the target, or it is where the chain ends. */
  ghost predicate LeadsTo(c: Config, target: Version, j: nat)
    requires c.chain != []
  {
    j <= |c.chain| && (if j < |c.chain| then c.chain[j].source else c.chain[|c.chain| - 1].target) == target
  }

  lemma StartsInChain(c: Config, db: Db)
    requires Contiguous(c.chain)
    ensures c.chain != [] && (Recorded(db) == UNTRACKED <==> Untracked(db))
  {
  }

  /** The places a run goes between are the only ones with these versions. */
  lemma OnlyPlaces(c: Config, target: Version, db: Db, i: nat, j: nat)
    requires Contiguous(c.chain) && i == PlaceOf(c.chain, StartOf(c, db)) && j == FirstAt(c.chain, target, 0)
    ensures forall k :: StartsAt(c, db, k) <==> k == i && i < |c.chain|
    ensures forall k :: LeadsTo(c, target, k) <==> k == j && j <= |c.chain|
  {
    forall k: nat ensures StartsAt(c, db, k) <==> k == i && i < |c.chain| {
      if StartsAt(c, db, k) {
        assert At(c.chain, k) == StartOf(c, db);
        assert i <= k;
        PlacesDiffer(c.chain, i, k);
      }
      if k == i && i < |c.chain| && Untracked(db) {
        assert At(c.chain, i) == At(c.chain, 0);
        PlacesDiffer(c.chain, i, 0);
      }
    }
    forall k: nat ensures LeadsTo(c, target, k) <==> k == j && j <= |c.chain| {
      if LeadsTo(c, target, k) {
        assert At(c.chain, k) == target;
        assert j <= k;
        PlacesDiffer(c.chain, j, k);
      }
    }
  }
}
