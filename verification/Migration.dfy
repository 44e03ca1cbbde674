/** Schema migration when any number of processes start at once over one database file. */
module Migration {
  import opened Wrappers

  const SCHEMA_VERSION: int := 20
  const BASELINE_VERSION: int := 8

  /** The committed file: user_version, the migration steps committed so far in order, and how often SCHEMA was
      applied. */
  datatype Db = Db(version: int, applied: seq<int>, created: nat)

  datatype Outcome = Returned(version: int) | TooNew | TooOld | StepFailed(step: int) | Forward(probed: int)

  function Range(lo: int, hi: int): seq<int>
    decreases hi - lo
  {
    if lo > hi then [] else [lo] + Range(lo + 1, hi)
  }

  /** The first transaction, whole: `schemaFails` says whether a SCHEMA statement raises. */
  function Probe(d: Db, schemaFails: bool): (Db, Outcome) {
    if d.version == SCHEMA_VERSION then (d, Returned(SCHEMA_VERSION))
    else if d.version == 0 then
      if schemaFails then (d, StepFailed(0))
        else (Db(SCHEMA_VERSION, d.applied, d.created + 1), Returned(SCHEMA_VERSION))
    else if d.version > SCHEMA_VERSION then (d, TooNew)
    else if d.version < BASELINE_VERSION then (d, TooOld)
    else (d, Forward(d.version))
  }

  /** The step at which a pass from `version` fails: one that raises, or one MIGRATIONS has no entry for. */
  function FirstFailing(version: int, fails: set<int>): Option<int>
    decreases SCHEMA_VERSION - version
  {
    if version > SCHEMA_VERSION then None
    else if version <= BASELINE_VERSION || version in fails then Some(version)
    else FirstFailing(version + 1, fails)
  }

  /** The second transaction, whole. */
  function Migrated(d: Db, fails: set<int>): (Db, Outcome) {
    if d.version == SCHEMA_VERSION then (d, Returned(SCHEMA_VERSION))
    else match FirstFailing(d.version + 1, fails)
      case Some(step) => (d, StepFailed(step))
      case None =>
        (Db(if d.version < SCHEMA_VERSION then SCHEMA_VERSION else d.version,
          d.applied + Range(d.version + 1, SCHEMA_VERSION), d.created),
         Returned(SCHEMA_VERSION))
  }

  lemma {:induction false} RangeAppend(lo: int, hi: int)
    requires lo <= hi + 1
    ensures Range(lo, hi + 1) == Range(lo, hi) + [hi + 1]
    decreases hi - lo
  {
    if lo <= hi {
      RangeAppend(lo + 1, hi);
    }
  }

  /** A connection's view: the file, and the uncommitted work of an open transaction. */
  class Connection {
    var file: Db
    var work: Db

    constructor (file: Db)
      ensures this.file == file
    {
      this.file, this.work := file, file;
    }

    /** migrate() up to the point where a forward migration is found to be needed. */
    method ProbeVersion(schemaFails: bool) returns (outcome: Outcome)
      modifies this
      ensures (file, outcome) == Probe(old(file), schemaFails)
      ensures old(file.version) == 0 && !schemaFails ==>
        outcome == Returned(20) && file == old(file).(version := 20, created := old(file.created) + 1)
      ensures old(file.version) != 0 || schemaFails ==> file == old(file)
    {
      work := file;  // BEGIN IMMEDIATE
      if work.version == SCHEMA_VERSION {
        return Returned(SCHEMA_VERSION);
      }
      if work.version == 0 {
        if schemaFails {
          work := file;  // ROLLBACK
          return StepFailed(0);
        }
        work := work.(created := work.created + 1);
        work := work.(version := SCHEMA_VERSION);
        file := work;  // COMMIT
        return Returned(SCHEMA_VERSION);
      }
      if work.version > SCHEMA_VERSION {
        return TooNew;
      }
      if work.version < BASELINE_VERSION {
        return TooOld;
      }
      outcome := Forward(work.version);
    }

    /** _migrate_forward after the backup copy: every step above the version it reads, or none. */
    method MigrateForward(fails: set<int>) returns (outcome: Outcome)
      modifies this
      ensures (file, outcome) == Migrated(old(file), fails)
    {
      work := file;  // BEGIN IMMEDIATE
      var current := work.version;
      if current == SCHEMA_VERSION {
        return Returned(SCHEMA_VERSION);
      }
      var version := current + 1;
      while version <= SCHEMA_VERSION
        invariant version == current + 1 || current + 1 <= version <= SCHEMA_VERSION + 1
        invariant file == old(file)
        invariant FirstFailing(current + 1, fails) == FirstFailing(version, fails)
        invariant work == Db(if version == current + 1 then current else version - 1,
          file.applied + Range(current + 1, version - 1), file.created)
      {
        if version <= BASELINE_VERSION || version in fails {
          work := file;  // ROLLBACK
          return StepFailed(version);
        }
        RangeAppend(current + 1, version - 1);
        work := work.(applied := work.applied + [version]);
        work := work.(version := version);
        version := version + 1;
      }
      file := work;  // COMMIT
      outcome := Returned(SCHEMA_VERSION);
    }
  }

  // ---- Any number of processes -------------------------------------------------------------

  type Pid = nat

  datatype Pc = Started | Copying(probed: int) | Ended(outcome: Outcome)

  datatype Sys = Sys(file: Db, procs: map<Pid, Pc>)

  /** BEGIN IMMEDIATE serialises the transactions; a process that dies inside one leaves the file as it was. */
  datatype Step =
    | Start(pid: Pid)
    | First(pid: Pid, schemaFails: bool)
    | Second(pid: Pid, fails: set<int>)
    | Die(pid: Pid)

  predicate Enabled(s: Sys, e: Step) {
    match e
    case Start(pid) => pid !in s.procs
    case First(pid, _) => pid in s.procs && s.procs[pid] == Started
    case Second(pid, _) => pid in s.procs && s.procs[pid].Copying?
    case Die(pid) => pid in s.procs
  }

  function Next(s: Sys, e: Step): Sys
    requires Enabled(s, e)
  {
    match e
    case Start(pid) => s.(procs := s.procs[pid := Started])
    case First(pid, schemaFails) =>
      var (d, o) := Probe(s.file, schemaFails);
      Sys(d, s.procs[pid := if o.Forward? then Copying(o.probed) else Ended(o)])
    case Second(pid, fails) =>
      var (d, o) := Migrated(s.file, fails);
      Sys(d, s.procs[pid := Ended(o)])
    case Die(pid) => s.(procs := s.procs - {pid})
  }

  predicate RunEnabled(s: Sys, run: seq<Step>)
    decreases |run|
  {
    run == [] || (Enabled(s, run[0]) && RunEnabled(Next(s, run[0]), run[1..]))
  }

  function RunTo(s: Sys, run: seq<Step>): Sys
    requires RunEnabled(s, run)
    decreases |run|
  {
    if run == [] then s else RunTo(Next(s, run[0]), run[1..])
  }

  /** The one state a start file may turn into: fresh files get SCHEMA once, supported ones every step above theirs
      once, in order. */
  function Target(d: Db): Db {
    if d.version == 0 then Db(SCHEMA_VERSION, d.applied, d.created + 1)
    else if BASELINE_VERSION <= d.version < SCHEMA_VERSION
    then Db(SCHEMA_VERSION, d.applied + Range(d.version + 1, SCHEMA_VERSION), d.created)
    else d
  }

  predicate Supported(version: int) {
    version == 0 || BASELINE_VERSION <= version <= SCHEMA_VERSION
  }

  ghost predicate Inv(start: Db, s: Sys) {
    && (s.file == start || s.file == Target(start))
    && forall pid :: pid in s.procs ==>
      match s.procs[pid]
      case Started => true
      case Copying(v) => v == start.version && BASELINE_VERSION <= v < SCHEMA_VERSION
      case Ended(Returned(v)) => v == SCHEMA_VERSION && Supported(start.version) && s.file == Target(start)
      case Ended(StepFailed(_)) => Supported(start.version)
      case Ended(TooNew) => start.version > SCHEMA_VERSION
      case Ended(TooOld) => !Supported(start.version) && start.version < BASELINE_VERSION
      case Ended(Forward(_)) => false
  }

  lemma NextKeepsInv(start: Db, s: Sys, e: Step)
    requires Inv(start, s) && Enabled(s, e)
    ensures Inv(start, Next(s, e))
    ensures (e.First? || e.Second?) && Next(s, e).procs[e.pid].Ended? && Next(s, e).procs[e.pid].outcome.StepFailed?
      ==> Next(s, e).file == s.file
  {
    hide Range, FirstFailing;
  }

  /** Any interleaving of any number of starting processes, failing steps and deaths: the committed file is the start
      file or its one target, never a version in between; each step is committed at most once; and every process that
      returns leaves the current version committed. */
  lemma {:induction false} MigrationIsAllOrNothing(start: Db, s: Sys, run: seq<Step>)
    requires Inv(start, s) && RunEnabled(s, run)
    ensures Inv(start, RunTo(s, run))
    ensures Supported(start.version) ==>
      RunTo(s, run).file.version == start.version || RunTo(s, run).file.version == SCHEMA_VERSION
    ensures !Supported(start.version) ==> RunTo(s, run).file == start
    ensures forall pid ::
      pid in RunTo(s, run).procs && RunTo(s, run).procs[pid].Ended? && RunTo(s, run).procs[pid].outcome.Returned? ==>
      RunTo(s, run).file.version == SCHEMA_VERSION
    decreases |run|
  {
    if run == [] {
    } else {
      NextKeepsInv(start, s, run[0]);
      hide Inv, Next, Target;
      MigrationIsAllOrNothing(start, Next(s, run[0]), run[1..]);
    }
  }

  lemma NobodyYet(start: Db)
    ensures Inv(start, Sys(start, map[]))
  {
  }

  /** So from before any process starts, whatever the file. */
  lemma EveryStartEndsWell(start: Db, run: seq<Step>)
    requires RunEnabled(Sys(start, map[]), run)
    ensures var e := RunTo(Sys(start, map[]), run);
      && (e.file == start || e.file == Target(start))
      && forall pid :: pid in e.procs && e.procs[pid].Ended? && e.procs[pid].outcome.Returned? ==>
           e.file.version == SCHEMA_VERSION
  {
    NobodyYet(start);
    MigrationIsAllOrNothing(start, Sys(start, map[]), run);
    hide RunTo, Target;
  }

  // ---- What one process achieves -------------------------------------------------------------

  /** Exactly how a first transaction ends, and when it writes. */
  lemma FirstEndsIff(d: Db, schemaFails: bool)
    ensures var (file, o) := Probe(d, schemaFails);
      && (o == Returned(20) <==> d.version == 20 || (d.version == 0 && !schemaFails))
      && (o == StepFailed(0) <==> d.version == 0 && schemaFails)
      && (o == TooNew <==> 20 < d.version)
      && (o == TooOld <==> d.version < 8 && d.version != 0)
      && (o == Forward(d.version) <==> 8 <= d.version < 20)
      && file == if d.version == 0 && !schemaFails then d.(version := 20, created := d.created + 1) else d
  {
  }

  /** The steps above a version, one after another. */
  lemma {:induction false} RangeIs(lo: int, hi: int)
    requires lo <= hi + 1
    ensures |Range(lo, hi)| == hi + 1 - lo && forall k :: 0 <= k < |Range(lo, hi)| ==> Range(lo, hi)[k] == lo + k
    decreases hi - lo
  {
    if lo > hi {
    } else {
      RangeIs(lo + 1, hi);
    }
  }

  /** A file brought to version 20: created by SCHEMA if it was fresh, and otherwise by every step above its own
      version, each once and in order. */
  predicate BroughtUp(start: Db, file: Db) {
    && file.version == 20
    && file.created == start.created + (if start.version == 0 then 1 else 0)
    && start.applied <= file.applied
    && |file.applied| == |start.applied| + (if start.version == 0 then 0 else 20 - start.version)
    && forall k :: |start.applied| <= k < |file.applied| ==>
      file.applied[k] == start.version + 1 + (k - |start.applied|)
  }

  lemma TargetIsBroughtUp(start: Db)
    requires Supported(start.version)
    ensures BroughtUp(start, Target(start))
  {
    if 0 < start.version < 20 {
      RangeIs(start.version + 1, 20);
    }
    hide Range;
  }

  /** All that one process does when nothing fails. */
  function AloneRun(start: Db, pid: Pid): seq<Step> {
    [Start(pid), First(pid, false)] + if 0 < start.version < 20 then [Second(pid, {})] else []
  }

  /** One process alone, no statement failing, brings every supported file up and returns. */
  lemma AloneSucceeds(start: Db, pid: Pid)
    requires Supported(start.version)
    ensures var s := Sys(start, map[]);
      && RunEnabled(s, AloneRun(start, pid))
      && var e := RunTo(s, AloneRun(start, pid));
         && e.procs == map[pid := Ended(Returned(20))] && BroughtUp(start, e.file) && e.file == Target(start)
  {
    var s := Sys(start, map[]);
    var s1 := Next(s, Start(pid));
    var s2 := Next(s1, First(pid, false));
    FirstEndsIff(start, false);
    TargetIsBroughtUp(start);
    var run := AloneRun(start, pid);
    if 0 < start.version < 20 {
      CleanPassSucceeds(start, {});
      var s3 := Next(s2, Second(pid, {}));
      assert run[1..] == [First(pid, false), Second(pid, {})] && run[1..][1..] == [Second(pid, {})];
      assert run[1..][1..][1..] == [] && RunEnabled(s3, []) && RunTo(s3, []) == s3;
      assert RunEnabled(s2, run[1..][1..]) && RunTo(s2, run[1..][1..]) == s3;
    } else {
      assert run[1..] == [First(pid, false)] && run[1..][1..] == [];
      assert RunEnabled(s2, run[1..][1..]) && RunTo(s2, run[1..][1..]) == s2;
    }
    assert RunEnabled(s1, run[1..]);
    hide Probe, Migrated, Target, BroughtUp, Range, FirstFailing;
  }

  /** A second transaction without a failing step always brings a supported file to its target and returns. */
  lemma {:induction false} CleanPassSucceeds(d: Db, fails: set<int>)
    requires BASELINE_VERSION <= d.version <= SCHEMA_VERSION && forall v :: d.version < v <= SCHEMA_VERSION ==>
      v !in fails
    ensures Migrated(d, fails) == (Target(d), Returned(SCHEMA_VERSION))
  {
    NoFailing(d.version + 1, fails);
  }

  lemma {:induction false} NoFailing(version: int, fails: set<int>)
    requires BASELINE_VERSION < version && forall v :: version <= v <= SCHEMA_VERSION ==> v !in fails
    ensures FirstFailing(version, fails) == None
    decreases SCHEMA_VERSION - version
  {
    if version <= SCHEMA_VERSION {
      NoFailing(version + 1, fails);
    }
  }

  /** A failing step anywhere leaves the file as it was, and the message names the first one. */
  lemma {:induction false} FailingStepChangesNothing(d: Db, fails: set<int>, v: int)
    requires BASELINE_VERSION <= d.version < v <= SCHEMA_VERSION && v in fails && forall u :: d.version < u < v ==>
      u !in fails
    ensures Migrated(d, fails) == (d, StepFailed(v))
  {
    FailsFirstAt(d.version + 1, fails, v);
  }

  lemma {:induction false} FailsFirstAt(version: int, fails: set<int>, v: int)
    requires BASELINE_VERSION < version <= v <= SCHEMA_VERSION && v in fails && forall u :: version <= u < v ==>
      u !in fails
    ensures FirstFailing(version, fails) == Some(v)
    decreases v - version
  {
    if version < v {
      FailsFirstAt(version + 1, fails, v);
    }
  }

  // ---- Beside another release --------------------------------------------------------------

  /** A step of this release, or a newer release migrating the same file in one transaction of its own. */
  datatype Move = Ours(step: Step) | Upgrade(version: int)

  predicate MoveEnabled(s: Sys, m: Move) {
    match m
    case Ours(e) => Enabled(s, e)
    case Upgrade(v) =>
      SCHEMA_VERSION < v && s.file.version < v && (Supported(s.file.version) || SCHEMA_VERSION < s.file.version)
  }

  function Moved(s: Sys, m: Move): Sys
    requires MoveEnabled(s, m)
  {
    match m
    case Ours(e) => Next(s, e)
    case Upgrade(v) =>
      if s.file.version == 0 then s.(file := Db(v, s.file.applied, s.file.created + 1))
      else s.(file := Db(v, s.file.applied + Range(s.file.version + 1, v), s.file.created))
  }

  predicate MovesEnabled(s: Sys, moves: seq<Move>)
    decreases |moves|
  {
    moves == [] || (MoveEnabled(s, moves[0]) && MovesEnabled(Moved(s, moves[0]), moves[1..]))
  }

  function MovesTo(s: Sys, moves: seq<Move>): Sys
    requires MovesEnabled(s, moves)
    decreases |moves|
  {
    if moves == [] then s else MovesTo(Moved(s, moves[0]), moves[1..])
  }

  /** None of the moves is a step of this process. */
  predicate LeavesAlone(moves: seq<Move>, pid: Pid) {
    forall i :: 0 <= i < |moves| && moves[i].Ours? ==> moves[i].step.pid != pid
  }

  predicate HasUpgrade(moves: seq<Move>) {
    exists i :: 0 <= i < |moves| && moves[i].Upgrade?
  }

  lemma OursKeepsSide(s: Sys, e: Step)
    requires Enabled(s, e)
    ensures Next(s, e).file.version <= SCHEMA_VERSION <==> s.file.version <= SCHEMA_VERSION
    ensures forall pid :: pid in s.procs && pid != e.pid ==>
      pid in Next(s, e).procs && Next(s, e).procs[pid] == s.procs[pid]
  {
    hide Range, FirstFailing;
  }

  /** The file stays at or below this release's version exactly as long as no newer release migrates it. */
  lemma {:induction false} UpgradePassesIff(s: Sys, moves: seq<Move>, pid: Pid)
    requires MovesEnabled(s, moves) && LeavesAlone(moves, pid) && pid in s.procs
    ensures MovesTo(s, moves).file.version <= SCHEMA_VERSION
       <==> s.file.version <= SCHEMA_VERSION && !HasUpgrade(moves)
    ensures pid in MovesTo(s, moves).procs && MovesTo(s, moves).procs[pid] == s.procs[pid]
    decreases |moves|
  {
    if moves == [] {
    } else {
      if moves[0].Ours? {
        OursKeepsSide(s, moves[0].step);
      }
      hide Next, Enabled, Range;
      UpgradePassesIff(Moved(s, moves[0]), moves[1..], pid);
      HasUpgradeStep(moves);
    }
  }

  lemma HasUpgradeStep(moves: seq<Move>)
    requires moves != []
    ensures HasUpgrade(moves) <==> moves[0].Upgrade? || HasUpgrade(moves[1..])
  {
    if HasUpgrade(moves[1..]) {
      var i :| 0 <= i < |moves[1..]| && moves[1..][i].Upgrade?;
      assert moves[i + 1].Upgrade?;
    }
    assert forall i :: 0 < i < |moves| ==> moves[i] == moves[1..][i - 1];
  }

  /** Whatever other processes do between the two transactions of one that returns, the version it reports is the
      committed one exactly when no newer release migrated the file in between. */
  lemma ReturnedIsCommittedIff(s: Sys, pid: Pid, schemaFails: bool, moves: seq<Move>, fails: set<int>)
    requires pid in s.procs && s.procs[pid] == Started && Next(s, First(pid, schemaFails)).procs[pid].Copying?
    requires MovesEnabled(Next(s, First(pid, schemaFails)), moves) && LeavesAlone(moves, pid)
    requires var e := MovesTo(Next(s, First(pid, schemaFails)), moves);
      Enabled(e, Second(pid, fails)) && Next(e, Second(pid, fails)).procs[pid] == Ended(Returned(SCHEMA_VERSION))
    ensures var e := Next(MovesTo(Next(s, First(pid, schemaFails)), moves), Second(pid, fails));
      e.file.version == SCHEMA_VERSION <==> !HasUpgrade(moves)
  {
    var s1 := Next(s, First(pid, schemaFails));
    assert s1.file.version < SCHEMA_VERSION;
    UpgradePassesIff(s1, moves, pid);
    SecondReports(MovesTo(s1, moves), pid, fails);
    hide Next, HasUpgrade, MovesTo;
  }

  lemma SecondReports(s: Sys, pid: Pid, fails: set<int>)
    requires Enabled(s, Second(pid, fails)) && Next(s, Second(pid, fails)).procs[pid] == Ended(Returned(SCHEMA_VERSION))
    ensures Next(s, Second(pid, fails)).file.version == SCHEMA_VERSION <==> s.file.version <= SCHEMA_VERSION
  {
    hide Range, FirstFailing;
  }
}
