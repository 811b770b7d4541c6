/** The SQLite migration runner: a contiguous chain of schema steps, each a script followed by a version
    record, with crashes possible before any write. */
module Migration {
  import opened Options

  /** A dotted version as its tuple of numbers. */
  type Version = seq<nat>

  /** The version reported when none is recorded. */
  const UNTRACKED: Version := [0, 0]

  /** Tuple comparison. */
  predicate Older(a: Version, b: Version) {
    b != [] && (a == [] || a[0] < b[0] || (a[0] == b[0] && Older(a[1..], b[1..])))
  }

  lemma {:induction false} OlderTransitive(a: Version, b: Version, c: Version)
    requires Older(a, b) && Older(b, c)
    ensures Older(a, c)
  {
    if a != [] && a[0] == b[0] == c[0] {
      OlderTransitive(a[1..], b[1..], c[1..]);
    }
  }

  lemma {:induction false} OlderIrreflexive(a: Version)
    ensures !Older(a, a)
  {
    if a != [] { OlderIrreflexive(a[1..]); }
  }

  /** One entry of the migration chain: (from, to). */
  datatype Link = Link(source: Version, target: Version)

  /** Versions increase along the chain, each step starts where the one before ended, and the untracked
      version is not part of it. */
  ghost predicate Contiguous(chain: seq<Link>) {
    && chain != []
    && (forall i :: 0 <= i < |chain| ==> Older(chain[i].source, chain[i].target))
    && (forall i :: 0 <= i < |chain| - 1 ==> chain[i].target == chain[i + 1].source)
    && (forall i :: 0 <= i < |chain| ==> chain[i].source != UNTRACKED && chain[i].target != UNTRACKED)
  }

  /** The version before step `i`; after the last step for i == |chain|. */
  function At(chain: seq<Link>, i: nat): Version
    requires chain != [] && i <= |chain|
  {
    if i < |chain| then chain[i].source else chain[|chain| - 1].target
  }

  lemma {:induction false} LaterIsNewer(chain: seq<Link>, i: nat, j: nat)
    requires Contiguous(chain) && i < j <= |chain|
    ensures Older(At(chain, i), At(chain, j))
  {
    assert Older(At(chain, j - 1), At(chain, j)) by {
      if j < |chain| { assert chain[j - 1].target == chain[j - 1 + 1].source; }
    }
    if i < j - 1 {
      LaterIsNewer(chain, i, j - 1);
      OlderTransitive(At(chain, i), At(chain, j - 1), At(chain, j));
    }
  }

  lemma PlacesDiffer(chain: seq<Link>, i: nat, j: nat)
    requires Contiguous(chain) && i <= |chain| && j <= |chain| && At(chain, i) == At(chain, j)
    ensures i == j
  {
    OlderIrreflexive(At(chain, i));
    if i < j {
      LaterIsNewer(chain, i, j);
    } else if j < i {
      LaterIsNewer(chain, j, i);
    }
  }

  // ---------------------------------------------------------------- the walk along the chain

  datatype ChainResult = Steps(steps: seq<Link>) | Downgrade | NoPath

  /** The steps from `persisted` to `target`: consecutive links of the chain from the one to the other;
      refused when the target is older, or when either is not on the chain. For an untracked database it is
      the whole chain, whatever the target. */
  ghost predicate Walk(chain: seq<Link>, persisted: Version, target: Version, r: ChainResult)
    requires chain != []
  {
    && (persisted == target ==> r == Steps([]))
    && (persisted != target ==> (r.Downgrade? <==> Older(target, persisted)))
    && (persisted == UNTRACKED && persisted != target && !Older(target, persisted) ==> r == Steps(chain))
    && (r.Steps? && persisted != target && persisted != UNTRACKED ==>
         exists i, j :: 0 <= i < j <= |chain| && At(chain, i) == persisted && At(chain, j) == target && r.steps == chain[i..j])
    && (r.NoPath? ==> !exists i, j :: 0 <= i <= j <= |chain| && At(chain, i) == persisted && At(chain, j) == target)
  }

  method ChainFor(chain: seq<Link>, persisted: Version, target: Version) returns (r: ChainResult)
    requires Contiguous(chain)
    ensures Walk(chain, persisted, target, r)
  {
    if persisted == target {
      return Steps([]);
    }
    if Older(target, persisted) {
      return Downgrade;
    }
    if persisted == UNTRACKED {
      return Steps(chain);
    }
    var steps: seq<Link> := [];
    var cursor := persisted;
    var at := IndexOfSource(chain, cursor);
    ghost var first := at;
    while cursor != target
      invariant 0 <= first <= at <= |chain|
      invariant steps == chain[first..at]
      invariant first < |chain| ==> At(chain, first) == persisted && cursor == At(chain, at)
      invariant first == |chain| ==> cursor == persisted && forall i :: 0 <= i < |chain| ==> chain[i].source != persisted
      invariant first < |chain| ==> forall j :: first <= j < at ==> At(chain, j) != target
      decreases |chain| - at
    {
      if at == |chain| {
        NoPathLeft(chain, persisted, target, first);
        return NoPath;
      }
      steps := steps + [chain[at]];
      cursor := chain[at].target;
      at := at + 1;
    }
    return Steps(steps);
  }

  /** The first chain entry starting at `version`. */
  method IndexOfSource(chain: seq<Link>, version: Version) returns (i: nat)
    ensures i <= |chain| && (i < |chain| ==> chain[i].source == version)
    ensures forall k :: 0 <= k < i ==> chain[k].source != version
  {
    i := 0;
    while i < |chain| && chain[i].source != version
      invariant i <= |chain| && forall k :: 0 <= k < i ==> chain[k].source != version
    {
      i := i + 1;
    }
  }

  lemma NoPathLeft(chain: seq<Link>, persisted: Version, target: Version, first: nat)
    requires Contiguous(chain) && persisted != target && first <= |chain|
    requires first < |chain| ==> At(chain, first) == persisted && forall j :: first <= j <= |chain| ==> At(chain, j) != target
    requires first == |chain| ==> forall i :: 0 <= i < |chain| ==> chain[i].source != persisted
    ensures !exists i, j :: 0 <= i <= j <= |chain| && At(chain, i) == persisted && At(chain, j) == target
  {
    if i, j :| 0 <= i <= j <= |chain| && At(chain, i) == persisted && At(chain, j) == target {
      if first < |chain| {
        PlacesDiffer(chain, i, first);
      }
    }
  }

  // ---------------------------------------------------------------- the database and one run

  /** What survives a crash: the recorded version, which steps' structural changes are present, and (as
      history) the scripts that were executed, in order. */
  datatype Db = Db(version: Option<Version>, present: set<nat>, scripts: seq<nat>)

  /** The chain, the step whose change marks a database as fresh, and which steps' changes are looked for
      before their script is run. */
  datatype Config = Config(chain: seq<Link>, marker: nat, detected: set<nat>)

  function Target(c: Config): Version
    requires c.chain != []
  {
    At(c.chain, |c.chain|)
  }

  function Recorded(db: Db): Version {
    if db.version.None? then UNTRACKED else db.version.value
  }

  /** Where the next step to apply stands, |chain| if the version starts no step. */
  function PlaceOf(chain: seq<Link>, version: Version): (i: nat)
    ensures i <= |chain| && (i < |chain| ==> chain[i].source == version)
    ensures forall k :: 0 <= k < i ==> chain[k].source != version
  {
    if chain == [] || chain[0].source == version then 0
    else
      var rest := PlaceOf(chain[1..], version);
      assert forall k :: 1 <= k < 1 + rest ==> chain[k] == chain[1..][k - 1];
      1 + rest
  }

  /** The first place from `j` on where the version stands, beyond the end if there is none. */
  function FirstAt(chain: seq<Link>, version: Version, j: nat): (r: nat)
    requires chain != []
    ensures r <= |chain| ==> j <= r && At(chain, r) == version
    ensures forall k :: j <= k < r && k <= |chain| ==> At(chain, k) != version
    decreases |chain| + 1 - j
  {
    if j > |chain| then j else if At(chain, j) == version then j else FirstAt(chain, version, j + 1)
  }

  /** How many writes step `i` needs: its script, unless its change is looked for and found, and its record. */
  function Cost(c: Config, db: Db, i: nat): nat {
    if i in c.detected && i in db.present then 1 else 2
  }

  function Scripted(db: Db, i: nat): Db {
    db.(present := db.present + {i}, scripts := db.scripts + [i])
  }

  /** The database after the whole of step `i`. */
  function Applied(c: Config, db: Db, i: nat): Db
    requires i < |c.chain|
  {
    (if Cost(c, db, i) == 1 then db else Scripted(db, i)).(version := Some(c.chain[i].target))
  }

  /** Steps i to j of one run that crashes when it has made `budget` writes. */
  function RunSteps(c: Config, db: Db, i: nat, j: nat, budget: nat): Db
    requires i <= j <= |c.chain|
    decreases j - i
  {
    if i == j || budget == 0 then db
    else if budget < Cost(c, db, i) then Scripted(db, i)
    else RunSteps(c, Applied(c, db, i), i + 1, j, budget - Cost(c, db, i))
  }

  /** Where a run starts on the chain: at the recorded version, or at the first one. */
  function StartOf(c: Config, db: Db): Version
    requires c.chain != []
  {
    if Recorded(db) == UNTRACKED then c.chain[0].source else Recorded(db)
  }

  /** One run of `migrate`, crashing when it has made `budget` writes. */
  function RunOnce(c: Config, target: Version, db: Db, budget: nat): Db
    requires c.chain != []
  {
    var v := Recorded(db);
    if v == target then db
    else if v == UNTRACKED && c.marker in db.present then
      if budget == 0 then db else db.(version := Some(target))
    else
      var i, j := PlaceOf(c.chain, StartOf(c, db)), FirstAt(c.chain, target, 0);
      if i < j <= |c.chain| then RunSteps(c, db, i, j, budget) else db
  }

  /** Surviving more writes would not change where these steps lead. */
  ghost predicate Through(c: Config, db: Db, i: nat, j: nat, budget: nat, end: Db)
    requires i <= j <= |c.chain|
  {
    forall larger: nat :: larger >= budget ==> RunSteps(c, db, i, j, larger) == end
  }

  lemma StepsUnfold(c: Config, db: Db, i: nat, j: nat, budget: nat)
    requires i < j <= |c.chain| && budget >= Cost(c, db, i)
    ensures RunSteps(c, db, i, j, budget) == RunSteps(c, Applied(c, db, i), i + 1, j, budget - Cost(c, db, i))
  {
  }

  lemma StepsThrough(c: Config, db: Db, i: nat, j: nat, budget: nat, end: Db)
    requires i < j <= |c.chain| && budget >= Cost(c, db, i)
    requires Through(c, Applied(c, db, i), i + 1, j, budget - Cost(c, db, i), end)
    ensures Through(c, db, i, j, budget, end)
  {
    hide RunSteps, Applied, Cost;
    forall larger: nat | larger >= budget ensures RunSteps(c, db, i, j, larger) == end {
      StepsUnfold(c, db, i, j, larger);
    }
  }

  /** What one run needs of the chain walk: the steps found are those between the two places. */
  lemma WalkFound(chain: seq<Link>, starting: Version, target: Version, r: ChainResult)
    requires Contiguous(chain) && starting != target && starting != UNTRACKED
    requires Walk(chain, starting, target, r)
    ensures var i, j := PlaceOf(chain, starting), FirstAt(chain, target, 0);
      && (r.Steps? <==> i < j <= |chain|)
      && (r.Steps? ==> r.steps == chain[i..j])
  {
    var i, j := PlaceOf(chain, starting), FirstAt(chain, target, 0);
    if r.Steps? {
      var a, b :| 0 <= a < b <= |chain| && At(chain, a) == starting && At(chain, b) == target && r.steps == chain[a..b];
      PlaceOfSource(chain, a);
      PlacesDiffer(chain, b, j);
    } else if i < j <= |chain| {
      assert At(chain, i) == starting && At(chain, j) == target;
      LaterIsNewer(chain, i, j);
      if r.Downgrade? {
        OlderTransitive(target, starting, target);
        OlderIrreflexive(target);
      }
    }
  }

  lemma PlaceOfSource(chain: seq<Link>, i: nat)
    requires Contiguous(chain) && i < |chain|
    ensures PlaceOf(chain, chain[i].source) == i
  {
    var k := PlaceOf(chain, chain[i].source);
    assert At(chain, i) == chain[i].source;
    assert At(chain, k) == chain[k].source;
    PlacesDiffer(chain, k, i);
  }

  lemma SourceIsNotTarget(chain: seq<Link>, i: nat)
    requires Contiguous(chain) && i < |chain|
    ensures chain[i].source != At(chain, |chain|)
  {
    if At(chain, i) == At(chain, |chain|) {
      PlacesDiffer(chain, i, |chain|);
    }
  }

  lemma FirstIsPlace(chain: seq<Link>, version: Version, i: nat)
    requires i <= |chain| && (i < |chain| ==> chain[i].source == version)
    requires forall k :: 0 <= k < i ==> chain[k].source != version
    ensures i == PlaceOf(chain, version)
  {
    var k := PlaceOf(chain, version);
    assert !(k < i) && !(i < k);
  }

  /** The steps are the links of the chain from place `first` on. */
  ghost predicate LinksAt(chain: seq<Link>, first: nat, steps: seq<Link>)
    ensures LinksAt(chain, first, steps) ==> first + |steps| <= |chain|
  {
    first + |steps| <= |chain| && steps == chain[first..first + |steps|]
  }

  lemma RestOfLinks(chain: seq<Link>, first: nat, steps: seq<Link>)
    requires LinksAt(chain, first, steps) && steps != []
    ensures LinksAt(chain, first + 1, steps[1..])
  {
  }

  class MigrationRunner {
    const config: Config
    var version: Option<Version>
    var present: set<nat>
    ghost var scripts: seq<nat>

    ghost function Contents(): Db
      reads this
    {
      Db(version, present, scripts)
    }

    constructor (config: Config, version: Option<Version>, present: set<nat>)
      ensures this.config == config && Contents() == Db(version, present, [])
    {
      this.config, this.version, this.present, scripts := config, version, present, [];
    }

    /** Apply step `i`, unless the process crashes: `budget` is the number of writes it still survives. */
    method ApplyMigration(i: nat, budget: nat) returns (left: nat, crashed: bool)
      requires i < |config.chain|
      modifies this
      ensures crashed <==> budget < Cost(config, old(Contents()), i)
      ensures !crashed ==> left == budget - Cost(config, old(Contents()), i) && Contents() == Applied(config, old(Contents()), i)
      ensures crashed ==> left == 0 && Contents() == if budget == 0 then old(Contents()) else Scripted(old(Contents()), i)
    {
      left := budget;
      if !(i in config.detected && i in present) {
        if left == 0 { return 0, true; }
        present, scripts, left := present + {i}, scripts + [i], left - 1;
      }
      if left == 0 { return 0, true; }
      version, left := Some(config.chain[i].target), left - 1;
      crashed := false;
    }

    /** Apply the given links, which start at place `first`, in turn. */
    method ApplySteps(first: nat, steps: seq<Link>, budget: nat) returns (crashed: bool)
      requires LinksAt(config.chain, first, steps)
      modifies this
      ensures Contents() == RunSteps(config, old(Contents()), first, first + |steps|, budget)
      ensures !crashed ==> Through(config, old(Contents()), first, first + |steps|, budget, Contents())
      decreases |steps|
    {
      hide Applied, Cost;
      if steps == [] {
        return false;
      }
      ghost var before := Contents();
      ghost var end := first + |steps|;
      var left, stopped := ApplyMigration(first, budget);
      if stopped {
        StepsCrash(config, before, first, end, budget);
        return true;
      }
      StepsUnfold(config, before, first, end, budget);
      RestOfLinks(config.chain, first, steps);
      hide RunSteps, Through, LinksAt;
      crashed := ApplySteps(first + 1, steps[1..], left);
      if !crashed {
        StepsThrough(config, before, first, end, budget, Contents());
      }
    }

    /** Migrate to the target version, crashing when the budget of writes is used up first. */
    method Migrate(target: Version, budget: nat) returns (crashed: bool)
      requires Contiguous(config.chain)
      modifies this
      ensures Contents() == RunOnce(config, target, old(Contents()), budget)
      ensures !crashed ==> Ended(config, target, old(Contents()), budget, Contents())
    {
      ChainStart(config.chain);
      hide RunOnce, RunSteps, PlaceOf, FirstAt, Older, Contiguous, Through, Ended, Walks, Walk;
      var starting := if version.None? then UNTRACKED else version.value;
      if starting == target {
        RunStays(config, target, Contents(), budget);
        return false;
      }
      if starting == UNTRACKED {
        if config.marker in present {
          RunMarks(config, target, Contents());
          if budget == 0 { return true; }
          version := Some(target);
          return false;
        }
        starting := config.chain[0].source;
      }
      crashed := MigrateFrom(starting, target, budget);
    }

    /** Apply the steps from the starting version to the target, or none if there is no way. */
    method MigrateFrom(starting: Version, target: Version, budget: nat) returns (crashed: bool)
      requires Contiguous(config.chain) && starting == StartOf(config, Contents()) != UNTRACKED
      requires Recorded(Contents()) != target && !(Recorded(Contents()) == UNTRACKED && config.marker in present)
      modifies this
      ensures Contents() == RunOnce(config, target, old(Contents()), budget)
      ensures !crashed ==> Ended(config, target, old(Contents()), budget, Contents())
    {
      hide RunOnce, RunSteps, PlaceOf, FirstAt, Older, Contiguous, Through, Ended, Walks, Walk, StartOf, Recorded, LinksAt;
      ChainStart(config.chain);
      var r := ChainFor(config.chain, starting, target);
      if starting == target {
        AlreadyThere(config, target, Contents(), budget);
        return false;
      }
      ghost var before := Contents();
      var i := IndexOfSource(config.chain, starting);
      FirstIsPlace(config.chain, starting, i);
      ChainDecides(config, target, before, starting, i, r, budget);
      if !r.Steps? {
        return false;
      }
      crashed := ApplySteps(i, r.steps, budget);
      WalkMade(config, target, before, i, i + |r.steps|, budget, Contents());
    }
  }

  /** Surviving more writes than these would not change where the run leads. */
  ghost predicate Ended(c: Config, target: Version, db: Db, budget: nat, end: Db)
    requires c.chain != []
  {
    forall larger: nat :: larger >= budget ==> RunOnce(c, target, db, larger) == end
  }

  lemma ChainStart(chain: seq<Link>)
    requires Contiguous(chain)
    ensures chain != [] && chain[0].source != UNTRACKED
  {
  }

  /** The run makes these steps, whatever its budget. */
  ghost predicate Walks(c: Config, target: Version, db: Db, i: nat, j: nat)
    requires c.chain != [] && i <= j <= |c.chain|
  {
    forall budget: nat :: RunOnce(c, target, db, budget) == RunSteps(c, db, i, j, budget)
  }

  lemma WalkMade(c: Config, target: Version, db: Db, i: nat, j: nat, budget: nat, end: Db)
    requires c.chain != [] && i <= j <= |c.chain| && Walks(c, target, db, i, j)
    ensures RunOnce(c, target, db, budget) == RunSteps(c, db, i, j, budget)
    ensures Through(c, db, i, j, budget, end) ==> Ended(c, target, db, budget, end)
  {
    hide RunOnce, RunSteps;
  }

  /** What the answer of the chain walk means for the run. */
  lemma ChainDecides(c: Config, target: Version, db: Db, starting: Version, i: nat, r: ChainResult, budget: nat)
    requires Contiguous(c.chain) && starting == StartOf(c, db) != target && Recorded(db) != target
    requires starting != UNTRACKED && !(Recorded(db) == UNTRACKED && c.marker in db.present)
    requires Walk(c.chain, starting, target, r) && i == PlaceOf(c.chain, starting)
    ensures r.Steps? ==>
      && LinksAt(c.chain, i, r.steps)
      && Walks(c, target, db, i, i + |r.steps|)
    ensures !r.Steps? ==> RunOnce(c, target, db, budget) == db && Ended(c, target, db, budget, db)
  {
    hide PlaceOf, FirstAt, RunSteps, Walk;
    WalkFound(c.chain, starting, target, r);
    hide Contiguous, RunOnce;
    if r.Steps? {
      RunWalks(c, target, db);
    } else {
      RunStays(c, target, db, budget);
    }
  }

  lemma RunStays(c: Config, target: Version, db: Db, budget: nat)
    requires c.chain != []
    requires Recorded(db) == target ||
      (!(Recorded(db) == UNTRACKED && c.marker in db.present) &&
       !(PlaceOf(c.chain, StartOf(c, db)) < FirstAt(c.chain, target, 0) <= |c.chain|))
    ensures RunOnce(c, target, db, budget) == db && Ended(c, target, db, budget, db)
  {
  }

  /** A database that starts the chain where the target is. */
  lemma AlreadyThere(c: Config, target: Version, db: Db, budget: nat)
    requires Contiguous(c.chain) && StartOf(c, db) == target != Recorded(db)
    requires !(Recorded(db) == UNTRACKED && c.marker in db.present)
    ensures RunOnce(c, target, db, budget) == db && Ended(c, target, db, budget, db)
  {
    hide RunOnce, PlaceOf, FirstAt, Ended;
    SamePlace(c.chain, target);
    RunStays(c, target, db, budget);
  }

  lemma RunMarks(c: Config, target: Version, db: Db)
    requires c.chain != [] && Recorded(db) == UNTRACKED != target && c.marker in db.present
    ensures forall budget: nat :: RunOnce(c, target, db, budget) == if budget == 0 then db else db.(version := Some(target))
    ensures forall budget: nat :: budget > 0 ==> Ended(c, target, db, budget, db.(version := Some(target)))
  {
  }

  lemma RunWalks(c: Config, target: Version, db: Db)
    requires c.chain != [] && Recorded(db) != target && !(Recorded(db) == UNTRACKED && c.marker in db.present)
    requires PlaceOf(c.chain, StartOf(c, db)) < FirstAt(c.chain, target, 0) <= |c.chain|
    ensures var i, j := PlaceOf(c.chain, StartOf(c, db)), FirstAt(c.chain, target, 0);
      forall budget: nat :: RunOnce(c, target, db, budget) == RunSteps(c, db, i, j, budget)
  {
  }

  lemma StepsCrash(c: Config, db: Db, i: nat, j: nat, budget: nat)
    requires i < j <= |c.chain| && budget < Cost(c, db, i)
    ensures RunSteps(c, db, i, j, budget) == if budget == 0 then db else Scripted(db, i)
  {
  }

  /** Already at the first version of the chain there is no step to apply. */
  lemma SamePlace(chain: seq<Link>, version: Version)
    requires Contiguous(chain) && version == chain[0].source
    ensures PlaceOf(chain, version) == 0 == FirstAt(chain, version, 0)
  {
  }

  // ---------------------------------------------------------------- one write at a time

  function ApplyWrite(c: Config, db: Db, i: nat): Db
    requires i < |c.chain|
  {
    if i in c.detected && i in db.present then db.(version := Some(c.chain[i].target))
    else db.(present := db.present + {i}, scripts := db.scripts + [i])
  }

  /** The next write of a migration started on `db`; `db` itself when there is nothing (more) to write. */
  function OneWrite(c: Config, db: Db): Db
    requires c.chain != []
  {
    var v := Recorded(db);
    if v == Target(c) then db
    else if v == UNTRACKED then
      if c.marker in db.present then db.(version := Some(Target(c))) else ApplyWrite(c, db, 0)
    else
      var i := PlaceOf(c.chain, v);
      if i < |c.chain| then ApplyWrite(c, db, i) else db
  }

  function Writes(c: Config, db: Db, n: nat): Db
    requires c.chain != []
    decreases n
  {
    if n == 0 then db else Writes(c, OneWrite(c, db), n - 1)
  }

  lemma {:induction false} WritesAdd(c: Config, db: Db, m: nat, n: nat)
    requires c.chain != []
    ensures Writes(c, db, m + n) == Writes(c, Writes(c, db, m), n)
    decreases m
  {
    hide OneWrite;
    if m > 0 { WritesAdd(c, OneWrite(c, db), m - 1, n); }
  }

  lemma NoWrites(c: Config, db: Db)
    requires c.chain != []
    ensures Writes(c, db, 0) == db
  {
  }

  lemma {:induction false} WritesStop(c: Config, db: Db, n: nat)
    requires c.chain != [] && OneWrite(c, db) == db
    ensures Writes(c, db, n) == db
  {
    if n > 0 { WritesStop(c, db, n - 1); }
  }

  /** The configurations in which a run and its continuation after a crash are indistinguishable: every
      step's change is detected, and the marker is not the first of several steps. */
  ghost predicate Sound(c: Config) {
    && (forall i :: 0 <= i < |c.chain| ==> i in c.detected)
    && (c.marker != 0 || |c.chain| == 1)
  }

  /** Where a step is due, its script or its version record is the next write. */
  lemma NextWriteAt(c: Config, db: Db, i: nat)
    requires Contiguous(c.chain) && i < |c.chain|
    requires Recorded(db) == c.chain[i].source || (i == 0 && Recorded(db) == UNTRACKED && c.marker !in db.present)
    ensures OneWrite(c, db) == ApplyWrite(c, db, i)
  {
    if Recorded(db) == c.chain[i].source {
      PlaceOfSource(c.chain, i);
      SourceIsNotTarget(c.chain, i);
    } else {
      assert Target(c) != UNTRACKED;
    }
  }

  /** At the target, or at a version that starts no step, nothing is written. */
  lemma NothingDue(c: Config, db: Db)
    requires c.chain != []
    ensures Recorded(db) == Target(c) ==> OneWrite(c, db) == db
    ensures Recorded(db) != UNTRACKED && PlaceOf(c.chain, Recorded(db)) == |c.chain| ==> OneWrite(c, db) == db
  {
  }

  /** A fresh database is recorded at the target in one write. */
  lemma MarkedWrite(c: Config, db: Db)
    requires c.chain != [] && Recorded(db) == UNTRACKED != Target(c) && c.marker in db.present
    ensures OneWrite(c, db) == db.(version := Some(Target(c)))
  {
  }

  lemma WritesNext(c: Config, db: Db, n: nat)
    requires c.chain != [] && n > 0
    ensures Writes(c, db, n) == Writes(c, OneWrite(c, db), n - 1)
  {
  }

  /** The writes of a step that is due are the next writes. */
  lemma StepIsWrites(c: Config, db: Db, i: nat, budget: nat)
    requires Contiguous(c.chain) && Sound(c) && i < |c.chain|
    requires Recorded(db) == c.chain[i].source || (i == 0 && Recorded(db) == UNTRACKED && c.marker !in db.present)
    ensures budget >= Cost(c, db, i) ==> Writes(c, db, budget) == Writes(c, Applied(c, db, i), budget - Cost(c, db, i))
    ensures 0 < budget < Cost(c, db, i) ==> Writes(c, db, budget) == Scripted(db, i)
  {
    hide Writes, OneWrite;
    NextWriteAt(c, db, i);
    NoWrites(c, OneWrite(c, db));
    if budget > 0 {
      WritesNext(c, db, budget);
      if Cost(c, db, i) == 2 && budget > 1 {
        var changed := Scripted(db, i);
        WritesNext(c, changed, budget - 1);
        if Recorded(db) == UNTRACKED && c.marker in changed.present {
          assert Target(c) == c.chain[0].target;
          MarkedWrite(c, changed);
        } else {
          NextWriteAt(c, changed, i);
        }
      }
    }
  }

  lemma {:induction false} StepsAreWrites(c: Config, db: Db, i: nat, budget: nat)
    requires Contiguous(c.chain) && Sound(c) && i < |c.chain|
    requires Recorded(db) == c.chain[i].source || (i == 0 && Recorded(db) == UNTRACKED && c.marker !in db.present)
    ensures RunSteps(c, db, i, |c.chain|, budget) == Writes(c, db, budget)
    decreases |c.chain| - i
  {
    hide Writes, OneWrite, Applied, Sound, Contiguous;
    StepIsWrites(c, db, i, budget);
    NoWrites(c, db);
    if budget >= Cost(c, db, i) {
      var after, left := Applied(c, db, i), budget - Cost(c, db, i);
      AppliedVersion(c, db, i);
      if i + 1 < |c.chain| {
        StepsAreWrites(c, after, i + 1, left);
      } else {
        NothingDue(c, after);
        WritesStop(c, after, left);
      }
    }
  }

  lemma AppliedVersion(c: Config, db: Db, i: nat)
    requires Contiguous(c.chain) && i < |c.chain|
    ensures Recorded(Applied(c, db, i)) == At(c.chain, i + 1)
  {
    if i + 1 < |c.chain| { assert c.chain[i].target == c.chain[i + 1].source; }
  }

  /** In a sound configuration a run of the migration is that many single writes. */
  lemma RunIsWrites(c: Config, db: Db, budget: nat)
    requires Contiguous(c.chain) && Sound(c)
    ensures RunOnce(c, Target(c), db, budget) == Writes(c, db, budget)
  {
    hide Writes, OneWrite, RunSteps, Sound;
    var v := Recorded(db);
    NothingDue(c, db);
    NoWrites(c, db);
    EndOfChain(c.chain);
    if v == Target(c) {
      WritesStop(c, db, budget);
    } else if v == UNTRACKED && c.marker in db.present {
      if budget > 0 {
        WritesNext(c, db, budget);
        MarkedWrite(c, db);
        NothingDue(c, db.(version := Some(Target(c))));
        WritesStop(c, db.(version := Some(Target(c))), budget - 1);
      }
    } else {
      var i := PlaceOf(c.chain, StartOf(c, db));
      if i < |c.chain| {
        StepsAreWrites(c, db, i, budget);
      } else {
        WritesStop(c, db, budget);
      }
    }
  }

  lemma EndOfChain(chain: seq<Link>)
    requires Contiguous(chain)
    ensures FirstAt(chain, At(chain, |chain|), 0) == |chain|
    ensures PlaceOf(chain, chain[0].source) == 0
  {
    PlacesDiffer(chain, FirstAt(chain, At(chain, |chain|), 0), |chain|);
  }

  // ---------------------------------------------------------------- over any sequence of crashes

  /** Run the migration once per budget, crashing each time after that many writes. */
  function Runs(c: Config, db: Db, budgets: seq<nat>): Db
    requires c.chain != []
    decreases budgets
  {
    if budgets == [] then db else Runs(c, RunOnce(c, Target(c), db, budgets[0]), budgets[1..])
  }

  function Sum(budgets: seq<nat>): nat {
    if budgets == [] then 0 else budgets[0] + Sum(budgets[1..])
  }

  /** However a migration is cut up by crashes, the database is where the total number of writes leads. */
  lemma {:induction false} CrashesInvisible(c: Config, db: Db, budgets: seq<nat>)
    requires Contiguous(c.chain) && Sound(c)
    ensures Runs(c, db, budgets) == Writes(c, db, Sum(budgets))
    decreases budgets
  {
    if budgets != [] {
      hide RunOnce, Sound;
      RunIsWrites(c, db, budgets[0]);
      CrashesInvisible(c, Writes(c, db, budgets[0]), budgets[1..]);
      WritesAdd(c, db, budgets[0], Sum(budgets[1..]));
    }
  }

  ghost function UpTo(n: nat): (r: set<nat>)
    ensures forall i: nat :: i in r <==> i < n
  {
    if n == 0 then {} else UpTo(n - 1) + {n - 1}
  }

  ghost function AllSteps(c: Config): set<nat> {
    UpTo(|c.chain|)
  }

  /** A tracked database is at some place of the chain with all earlier changes present; an untracked one
      that carries the marker has the full latest shape. */
  ghost predicate Consistent(c: Config, db: Db)
    requires c.chain != []
  {
    if Recorded(db) == UNTRACKED then c.marker in db.present ==> AllSteps(c) <= db.present
    else exists j :: TrackedAt(c, db, j)
  }

  ghost predicate TrackedAt(c: Config, db: Db, j: nat)
    requires c.chain != []
  {
    j <= |c.chain| && At(c.chain, j) == Recorded(db) && forall i :: 0 <= i < j ==> i in db.present
  }

  /** How far the recorded version is along the chain; 0 for an untracked database. */
  function Place(c: Config, db: Db): nat
    requires c.chain != []
  {
    if Recorded(db) == UNTRACKED then 0 else PlaceOf(c.chain, Recorded(db))
  }

  lemma PlaceWhenTracked(c: Config, db: Db, j: nat)
    requires Contiguous(c.chain) && TrackedAt(c, db, j)
    ensures Recorded(db) != UNTRACKED && Place(c, db) == j
  {
    if j < |c.chain| {
      PlaceOfSource(c.chain, j);
    } else if PlaceOf(c.chain, Recorded(db)) < |c.chain| {
      SourceIsNotTarget(c.chain, PlaceOf(c.chain, Recorded(db)));
    }
  }

  /** What every write keeps, relative to the database `from` the first run found: scripts ran in chain
      order, each at most once and only where the change was missing. */
  ghost predicate Progress(c: Config, from: Db, db: Db)
    requires c.chain != []
  {
    && Consistent(c, db)
    && (forall a, b :: 0 <= a < b < |db.scripts| ==> db.scripts[a] < db.scripts[b])
    && (forall i :: i in db.scripts ==> i < |c.chain| && i <= Place(c, db))
    && (forall i :: i in db.present <==> i in from.present || i in db.scripts)
    && (forall i :: i in db.scripts ==> i !in from.present)
  }

  lemma ApplyKeepsProgress(c: Config, from: Db, db: Db, i: nat)
    requires Contiguous(c.chain) && Sound(c) && Progress(c, from, db) && i < |c.chain| && i == Place(c, db)
    requires Recorded(db) == UNTRACKED ==> c.marker !in db.present
    requires Recorded(db) != UNTRACKED ==> TrackedAt(c, db, i)
    ensures Progress(c, from, ApplyWrite(c, db, i))
    ensures i in db.present ==> Recorded(ApplyWrite(c, db, i)) != UNTRACKED && Place(c, ApplyWrite(c, db, i)) == i + 1
  {
    if i in db.present {
      RecordKeepsProgress(c, from, db, i);
    } else {
      ScriptKeepsProgress(c, from, db, i);
    }
  }

  /** The change is there: its version is recorded. */
  lemma RecordKeepsProgress(c: Config, from: Db, db: Db, i: nat)
    requires Contiguous(c.chain) && Sound(c) && Progress(c, from, db) && i < |c.chain| && i == Place(c, db) && i in db.present
    requires Recorded(db) == UNTRACKED ==> c.marker !in db.present
    requires Recorded(db) != UNTRACKED ==> TrackedAt(c, db, i)
    ensures Progress(c, from, ApplyWrite(c, db, i))
    ensures Recorded(ApplyWrite(c, db, i)) != UNTRACKED && Place(c, ApplyWrite(c, db, i)) == i + 1
  {
    hide Place;
    var after := ApplyWrite(c, db, i);
    assert c.chain[i].target == At(c.chain, i + 1) by {
      if i + 1 < |c.chain| { assert c.chain[i].target == c.chain[i + 1].source; }
    }
    PlaceAtStart(c, db);
    assert TrackedAt(c, after, i + 1);
    PlaceWhenTracked(c, after, i + 1);
  }

  lemma PlaceAtStart(c: Config, db: Db)
    requires c.chain != []
    ensures Recorded(db) == UNTRACKED ==> Place(c, db) == 0
  {
  }

  /** The change is missing: its script is run. */
  lemma ScriptKeepsProgress(c: Config, from: Db, db: Db, i: nat)
    requires Contiguous(c.chain) && Sound(c) && Progress(c, from, db) && i < |c.chain| && i == Place(c, db) && i !in db.present
    requires Recorded(db) == UNTRACKED ==> c.marker !in db.present
    requires Recorded(db) != UNTRACKED ==> TrackedAt(c, db, i)
    ensures Progress(c, from, ApplyWrite(c, db, i))
  {
    var after := ApplyWrite(c, db, i);
    SamePlaceWhileScripted(c, db, i);
    hide Place;
    assert after.scripts == db.scripts + [i];
    forall a | 0 <= a < |db.scripts| ensures db.scripts[a] < i {
      assert db.scripts[a] in db.scripts;
    }
    if Recorded(db) != UNTRACKED {
      assert TrackedAt(c, after, i);
    }
  }

  lemma SamePlaceWhileScripted(c: Config, db: Db, i: nat)
    requires c.chain != [] && i < |c.chain| && Sound(c) && i !in db.present
    ensures Recorded(ApplyWrite(c, db, i)) == Recorded(db) && Place(c, ApplyWrite(c, db, i)) == Place(c, db)
  {
  }

  lemma WriteKeepsProgress(c: Config, from: Db, db: Db)
    requires Contiguous(c.chain) && Sound(c) && Progress(c, from, db)
    ensures Progress(c, from, OneWrite(c, db))
    ensures Place(c, db) <= Place(c, OneWrite(c, db))
  {
    var v := Recorded(db);
    if v == UNTRACKED {
      assert v != Target(c);
      if c.marker in db.present {
        var after := OneWrite(c, db);
        assert TrackedAt(c, after, |c.chain|);
        PlaceWhenTracked(c, after, |c.chain|);
      } else {
        ApplyKeepsProgress(c, from, db, 0);
      }
    } else {
      var j: nat :| TrackedAt(c, db, j);
      PlaceWhenTracked(c, db, j);
      if j < |c.chain| {
        SourceIsNotTarget(c.chain, j);
        ApplyKeepsProgress(c, from, db, j);
      }
    }
  }

  /** After any number of writes, hence after any crashes, scripts have run at most once, in order, only
      where needed, and the recorded version has not gone back. */
  lemma {:induction false} ProgressAlways(c: Config, from: Db, db: Db, n: nat)
    requires Contiguous(c.chain) && Sound(c) && Progress(c, from, db)
    ensures Progress(c, from, Writes(c, db, n))
    ensures Place(c, db) <= Place(c, Writes(c, db, n))
    decreases n
  {
    if n > 0 {
      WriteKeepsProgress(c, from, db);
      ProgressAlways(c, from, OneWrite(c, db), n - 1);
    }
  }

  /** How many writes are left at most. */
  ghost function Left(c: Config, db: Db): int
    requires c.chain != []
  {
    if Recorded(db) == Target(c) then 0
    else 2 * (|c.chain| - Place(c, db)) + 1 - if Place(c, db) in db.present then 1 else 0
  }

  lemma WriteShortens(c: Config, from: Db, db: Db)
    requires Contiguous(c.chain) && Sound(c) && Progress(c, from, db) && Recorded(db) != Target(c)
    ensures Left(c, OneWrite(c, db)) < Left(c, db)
  {
    var v := Recorded(db);
    var after := OneWrite(c, db);
    if v == UNTRACKED && c.marker in db.present {
      assert 0 in AllSteps(c);
    } else {
      var i := Place(c, db);
      if v != UNTRACKED {
        var j: nat :| TrackedAt(c, db, j);
        PlaceWhenTracked(c, db, j);
      }
      assert i < |c.chain|;
      assert after == ApplyWrite(c, db, i);
      ApplyKeepsProgress(c, from, db, i);
      if i !in db.present {
        assert i in after.present && Recorded(after) == v;
      }
    }
  }

  lemma {:induction false} Finishes(c: Config, from: Db, db: Db, n: nat)
    requires Contiguous(c.chain) && Sound(c) && Progress(c, from, db) && n >= Left(c, db)
    ensures Recorded(Writes(c, db, n)) == Target(c)
    decreases n
  {
    if Recorded(db) == Target(c) {
      WritesStop(c, db, n);
    } else {
      WriteShortens(c, from, db);
      WriteKeepsProgress(c, from, db);
      LeftNonNegative(c, OneWrite(c, db));
      Finishes(c, from, OneWrite(c, db), n - 1);
    }
  }

  lemma LeftNonNegative(c: Config, db: Db)
    requires c.chain != []
    ensures 0 <= Left(c, db) <= 2 * |c.chain| + 1
  {
  }

  /** The migration is done: latest version, every change present, and exactly the changes that were missing
      were made, each once and in chain order. */
  ghost predicate Migrated(c: Config, from: Db, db: Db)
    requires c.chain != []
  {
    && Recorded(db) == Target(c) && AllSteps(c) <= db.present
    && (forall a, b :: 0 <= a < b < |db.scripts| ==> db.scripts[a] < db.scripts[b])
    && (forall i :: i in db.scripts <==> i in AllSteps(c) - from.present)
  }

  /** Runs that together survive enough writes, started on a consistent database. */
  ghost predicate Attempt(c: Config, from: Db, budgets: seq<nat>)
    requires c.chain != []
  {
    Consistent(c, from) && from.scripts == [] && Sum(budgets) >= 2 * |c.chain| + 1
  }

  /** Wherever such runs crash, what they leave is as described by Progress. */
  lemma RunsKeepProgress(c: Config, from: Db, budgets: seq<nat>)
    requires Contiguous(c.chain) && Sound(c) && Consistent(c, from) && from.scripts == []
    ensures Progress(c, from, Runs(c, from, budgets)) && Place(c, from) <= Place(c, Runs(c, from, budgets))
  {
    CrashesInvisible(c, from, budgets);
    ProgressAlways(c, from, from, Sum(budgets));
  }

  /** Repeated runs that together survive enough writes complete the migration, wherever they crash, and a
      further run writes nothing. */
  lemma MigrationCompletes(c: Config, from: Db, budgets: seq<nat>)
    requires Contiguous(c.chain) && Sound(c) && Attempt(c, from, budgets)
    ensures Migrated(c, from, Runs(c, from, budgets))
    ensures forall budget :: RunOnce(c, Target(c), Runs(c, from, budgets), budget) == Runs(c, from, budgets)
  {
    hide Runs, Writes, OneWrite, Place;
    CrashesInvisible(c, from, budgets);
    LeftNonNegative(c, from);
    ProgressAlways(c, from, from, Sum(budgets));
    Finishes(c, from, from, Sum(budgets));
    var db := Runs(c, from, budgets);
    assert Target(c) != UNTRACKED;
    var j: nat :| TrackedAt(c, db, j);
    PlacesDiffer(c.chain, j, |c.chain|);
    assert AllSteps(c) <= db.present;
    PlaceInChain(c, db);
  }

  lemma PlaceInChain(c: Config, db: Db)
    requires c.chain != []
    ensures Place(c, db) <= |c.chain|
  {
  }

  // ---------------------------------------------------------------- the condition is exact

  /** If the marker is the first of several steps, a crash after the first script makes the restarted run
      take an old database for a fresh one: it records the latest version with later changes missing. */
  lemma MarkerOnFirstStep(c: Config, budgets: seq<nat>)
    requires Contiguous(c.chain) && |c.chain| >= 2 && c.marker == 0
    ensures var db := Runs(c, Db(None, {}, []), [1, 1] + budgets);
      Recorded(db) == Target(c) && 1 !in db.present
  {
    var old_, crashed := Db(None, {}, []), Db(None, {0}, [0]);
    var taken := Db(Some(Target(c)), {0}, [0]);
    EndOfChain(c.chain);
    assert Target(c) != UNTRACKED;
    assert RunOnce(c, Target(c), old_, 1) == RunSteps(c, old_, 0, |c.chain|, 1) == crashed;
    assert RunOnce(c, Target(c), crashed, 1) == taken;
    TwoRuns(c, old_, crashed, taken, budgets);
    AtTargetStays(c, taken, budgets);
  }

  lemma TwoRuns(c: Config, db: Db, first: Db, second: Db, budgets: seq<nat>)
    requires c.chain != [] && RunOnce(c, Target(c), db, 1) == first && RunOnce(c, Target(c), first, 1) == second
    ensures Runs(c, db, [1, 1] + budgets) == Runs(c, second, budgets)
  {
    hide RunOnce;
    var all := [1, 1] + budgets;
    assert all[1..] == [1] + budgets && all[1..][1..] == budgets;
    assert Runs(c, first, [1] + budgets) == Runs(c, second, budgets);
  }

  lemma {:induction false} AtTargetStays(c: Config, db: Db, budgets: seq<nat>)
    requires c.chain != [] && Recorded(db) == Target(c)
    ensures Runs(c, db, budgets) == db
    decreases budgets
  {
    if budgets != [] {
      AtTargetStays(c, db, budgets[1..]);
    }
  }

  /** A step whose change is not looked for runs its script again after a crash between script and record. */
  lemma UndetectedStepRunsTwice(c: Config, i: nat, budgets: seq<nat>)
    requires Contiguous(c.chain) && i < |c.chain| && i !in c.detected
    ensures var from := Db(Some(c.chain[i].source), UpTo(i), []);
      Consistent(c, from) && [i, i] <= Runs(c, from, [1, 1] + budgets).scripts
  {
    var from := Db(Some(c.chain[i].source), UpTo(i), []);
    var once := Scripted(from, i);
    var twice := Scripted(once, i);
    assert TrackedAt(c, from, i);
    EndOfChain(c.chain);
    PlaceOfSource(c.chain, i);
    SourceIsNotTarget(c.chain, i);
    assert RunOnce(c, Target(c), from, 1) == once;
    assert RunOnce(c, Target(c), once, 1) == twice;
    TwoRuns(c, from, once, twice, budgets);
    ScriptsGrow(c, twice, budgets);
    assert twice.scripts == [i, i];
  }

  /** Nothing takes back a script that ran. */
  lemma {:induction false} ScriptsGrow(c: Config, db: Db, budgets: seq<nat>)
    requires c.chain != []
    ensures db.scripts <= Runs(c, db, budgets).scripts
    decreases budgets
  {
    if budgets != [] {
      var next := RunOnce(c, Target(c), db, budgets[0]);
      assert db.scripts <= next.scripts by { ScriptsGrowInRun(c, db, budgets[0]); }
      ScriptsGrow(c, next, budgets[1..]);
    }
  }

  lemma ScriptsGrowInRun(c: Config, db: Db, budget: nat)
    requires c.chain != []
    ensures db.scripts <= RunOnce(c, Target(c), db, budget).scripts
  {
    var i, j := PlaceOf(c.chain, StartOf(c, db)), FirstAt(c.chain, Target(c), 0);
    if i < j <= |c.chain| {
      ScriptsGrowInSteps(c, db, i, j, budget);
    }
  }

  lemma {:induction false} ScriptsGrowInSteps(c: Config, db: Db, i: nat, j: nat, budget: nat)
    requires i <= j <= |c.chain|
    ensures db.scripts <= RunSteps(c, db, i, j, budget).scripts
    decreases j - i
  {
    if i < j && budget >= Cost(c, db, i) {
      ScriptsGrowInSteps(c, Applied(c, db, i), i + 1, j, budget - Cost(c, db, i));
    }
  }

  /** Every migration attempt on the chain completes. */
  ghost predicate AlwaysCompletes(c: Config)
    requires c.chain != []
  {
    forall from, budgets :: Attempt(c, from, budgets) ==> Migrated(c, from, Runs(c, from, budgets))
  }

  /** For a contiguous chain every attempt completes, whatever consistent database it starts on and wherever
      it crashes, exactly when every step's change is looked for and the marker is not the first of several
      steps. */
  lemma CompletesIffSound(c: Config)
    requires Contiguous(c.chain)
    ensures AlwaysCompletes(c) <==> Sound(c)
  {
    hide Migrated, Runs;
    var enough := [2 * |c.chain| + 1];
    EnoughIsEnough(c, enough);
    if Sound(c) {
      forall from, budgets | Attempt(c, from, budgets) ensures Migrated(c, from, Runs(c, from, budgets)) {
        MigrationCompletes(c, from, budgets);
      }
    } else if i :| 0 <= i < |c.chain| && i !in c.detected {
      var from := Db(Some(c.chain[i].source), UpTo(i), []);
      UndetectedStepRunsTwice(c, i, enough);
      NotMigratedTwice(c, from, Runs(c, from, [1, 1] + enough), i);
      assert Attempt(c, from, [1, 1] + enough);
    } else {
      var from := Db(None, {}, []);
      MarkerOnFirstStep(c, enough);
      NotMigratedWithout(c, from, Runs(c, from, [1, 1] + enough));
      assert Attempt(c, from, [1, 1] + enough);
    }
  }

  lemma EnoughIsEnough(c: Config, enough: seq<nat>)
    requires enough == [2 * |c.chain| + 1]
    ensures Sum([1, 1] + enough) >= 2 * |c.chain| + 1
  {
    var all := [1, 1] + enough;
    assert all[1..] == [1] + enough && all[1..][1..] == enough && enough[1..] == [];
    assert Sum(enough) == 2 * |c.chain| + 1;
    assert Sum([1] + enough) == 1 + Sum(enough);
  }

  lemma NotMigratedTwice(c: Config, from: Db, db: Db, i: nat)
    requires c.chain != [] && [i, i] <= db.scripts
    ensures !Migrated(c, from, db)
  {
    assert db.scripts[0] == i && db.scripts[1] == i;
  }

  lemma NotMigratedWithout(c: Config, from: Db, db: Db)
    requires |c.chain| >= 2 && 1 !in db.present
    ensures !Migrated(c, from, db)
  {
    assert 1 in AllSteps(c);
  }

  /** Every sequence of runs that survives enough writes completes the migration of this database. */
  ghost predicate CompletesFrom(c: Config, from: Db)
    requires c.chain != []
  {
    forall budgets :: Sum(budgets) >= 2 * |c.chain| + 1 ==> Migrated(c, from, Runs(c, from, budgets))
  }

  /** The databases the migration completes are exactly the consistent ones: an untracked database with the
      marker must have every change already, a tracked one every change before its version. */
  lemma CompletesFromIff(c: Config, from: Db)
    requires Contiguous(c.chain) && Sound(c) && from.scripts == []
    ensures CompletesFrom(c, from) <==> Consistent(c, from)
  {
    hide Migrated, Runs, Sound;
    if Consistent(c, from) {
      forall budgets | Sum(budgets) >= 2 * |c.chain| + 1 ensures Migrated(c, from, Runs(c, from, budgets)) {
        MigrationCompletes(c, from, budgets);
      }
    } else {
      var enough := [2 * |c.chain| + 1];
      assert enough[1..] == [] && Sum(enough) == 2 * |c.chain| + 1;
      InconsistentStays(c, from, enough[0]);
      OneRun(c, from, enough[0]);
    }
  }

  lemma OneRun(c: Config, db: Db, budget: nat)
    requires c.chain != []
    ensures Runs(c, db, [budget]) == RunOnce(c, Target(c), db, budget)
  {
    assert [budget][1..] == [];
  }

  lemma InconsistentStays(c: Config, from: Db, budget: nat)
    requires Contiguous(c.chain) && !Consistent(c, from) && budget > 0
    ensures !Migrated(c, from, RunOnce(c, Target(c), from, budget))
  {
    EndOfChain(c.chain);
    assert Target(c) != UNTRACKED;
    var v := Recorded(from);
    if v != UNTRACKED {
      var i := PlaceOf(c.chain, v);
      if i < |c.chain| {
        assert !TrackedAt(c, from, i);
        var k :| 0 <= k < i && k !in from.present;
        NothingBelow(c, from, i, |c.chain|, budget, k);
        assert k in AllSteps(c);
      } else if v == Target(c) {
        assert !TrackedAt(c, from, |c.chain|);
        var k :| 0 <= k < |c.chain| && k !in from.present;
        assert k in AllSteps(c);
      }
    }
  }

  lemma {:induction false} NothingBelow(c: Config, db: Db, i: nat, j: nat, budget: nat, k: nat)
    requires i <= j <= |c.chain| && k < i && k !in db.present
    ensures k !in RunSteps(c, db, i, j, budget).present
    decreases j - i
  {
    if i < j && budget >= Cost(c, db, i) {
      NothingBelow(c, Applied(c, db, i), i + 1, j, budget - Cost(c, db, i), k);
    }
  }

  /** The shipped chain 1.0, 1.1, 1.2, 1.3, with reply_to (the second step) as marker, meets the condition. */
  lemma ShippedChainSound()
    ensures var c := Config([Link([1, 0], [1, 1]), Link([1, 1], [1, 2]), Link([1, 2], [1, 3])], 1, {0, 1, 2});
      Contiguous(c.chain) && Sound(c)
  {
    var chain := [Link([1, 0], [1, 1]), Link([1, 1], [1, 2]), Link([1, 2], [1, 3])];
    forall i | 0 <= i < |chain| ensures Older(chain[i].source, chain[i].target) {
      assert chain[i].source[1..] == [i] && chain[i].target[1..] == [i + 1];
    }
  }
}
