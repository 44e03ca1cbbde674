/**
 The runs and workers tables, the SQL statements that change them, and the JobManager of one
 process. Each class method is proved against a function on plain values; RunProtocol interleaves
 those functions. Times are whole seconds (Timestamps.IsoOrder: the stored text orders like them).
 */
module Runs {
  import opened Wrappers

  type Udid = string
  type RunId = nat
  type WorkerId = string

  const ORPHAN_THRESHOLD: int := 60
  const PROGRESS_WRITE_INTERVAL: real := 1.0

  datatype Status = Running | Succeeded | Failed | NotConfirmed | Cancelled

  datatype Run = Run(udid: Udid, trigger: string, startedAt: int, finishedAt: Option<int>, status: Status,
                     message: string, phase: string, percent: Option<real>, progressMessage: string,
                     workerId: Option<WorkerId>, heartbeatAt: int)

  datatype Db = Db(runs: map<RunId, Run>, nextId: RunId, workers: map<WorkerId, int>)

  datatype JobState = JobState(udid: Udid, runId: RunId, phase: string, percent: Option<real>, message: string)

  predicate Occupies(r: Run, udid: Udid) {
    r.udid == udid && r.status == Running
  }

  predicate HasRunning(db: Db, udid: Udid) {
    exists id :: id in db.runs && Occupies(db.runs[id], udid)
  }

  /** What the partial unique index runs_one_running enforces. */
  ghost predicate OneRunning(db: Db) {
    forall a, b ::
      a in db.runs && b in db.runs && db.runs[a].status == Running && Occupies(db.runs[b], db.runs[a].udid) ==> a == b
  }

  ghost predicate IdsBelow(db: Db) {
    forall id :: id in db.runs ==> id < db.nextId
  }

  function NewRun(udid: Udid, trigger: string, now: int, worker: Option<WorkerId>): Run {
    Run(udid, trigger, now, None, Running, "", "starting", None, "", worker, now)
  }

  /** INSERT of a running row; None is the IntegrityError of the index. */
  function InsertRun(db: Db, udid: Udid, trigger: string, now: int, worker: Option<WorkerId>): (Db, Option<RunId>) {
    if HasRunning(db, udid) then (db, None)
    else (db.(runs := db.runs[db.nextId := NewRun(udid, trigger, now, worker)], nextId := db.nextId + 1),
      Some(db.nextId))
  }

  /** UPDATE by id, whatever the row's status. */
  function Claim(db: Db, id: RunId, worker: WorkerId, now: int): Db {
    if id !in db.runs then db
    else db.(runs := db.runs[id := db.runs[id].(workerId := Some(worker), heartbeatAt := now)])
  }

  function FinishRow(db: Db, id: RunId, status: Status, message: string, now: int): Db {
    if id !in db.runs then db
    else db.(runs := db.runs[id := db.runs[id].(status := status, finishedAt := Some(now), message := message)])
  }

  function ProgressRow(db: Db, s: JobState, now: int): Db {
    if s.runId !in db.runs then db
    else
      db.(runs := db.runs[s.runId := db.runs[s.runId].(phase := s.phase, percent := s.percent,
                                                      progressMessage := s.message, heartbeatAt := now)])
  }

  function Heartbeat(db: Db, worker: WorkerId, now: int): Db {
    db.(workers := db.workers[worker := now])
  }

  /** The worker behind a row is unknown, unregistered, or silent for longer than the threshold. */
  predicate WorkerGone(workers: map<WorkerId, int>, worker: Option<WorkerId>, now: int) {
    worker.None? || worker.value !in workers || workers[worker.value] < now - ORPHAN_THRESHOLD
  }

  predicate Orphaned(db: Db, id: RunId, now: int) {
    id in db.runs && db.runs[id].status == Running && WorkerGone(db.workers, db.runs[id].workerId, now)
  }

  function Swept(db: Db, id: RunId, now: int, stamp: int): Run
    requires id in db.runs
  {
    if Orphaned(db, id, now)
    then db.runs[id].(status := Failed, finishedAt := Some(stamp), message := "Worker restarted during the backup")
    else db.runs[id]
  }

  function Sweep(db: Db, now: int, stamp: int): Db {
    db.(runs := map id | id in db.runs :: Swept(db, id, now, stamp))
  }

  /** The TypeError of reading a column of no row. */
  datatype StartError = RowGone

  /** Everything JobManager.start reads and changes. */
  datatype Started = Started(db: Db, states: map<Udid, JobState>, state: Result<JobState, StartError>, spawned: bool)

  /** The row the index says is there: SELECT ... WHERE udid = ? AND status = 'running'. */
  ghost function RunningRow(db: Db, udid: Udid): RunId
    requires HasRunning(db, udid)
  {
    var id :| id in db.runs && Occupies(db.runs[id], udid);
    id
  }

  /** `rowGone`: the run that made the index refuse the insert ended before start could read its row. */
  ghost function StartSpec(db: Db, states: map<Udid, JobState>, worker: WorkerId,
                           udid: Udid, trigger: string, runId: Option<RunId>, now: int, rowGone: bool): (r: Started)
    ensures r.spawned ==> r.state.Ok?
  {
    if udid in states then Started(db, states, Ok(states[udid]), false)
    else if runId.Some? then
      var state := JobState(udid, runId.value, "starting", None, "");
      Started(Claim(db, runId.value, worker, now), states[udid := state], Ok(state), true)
    else
      var (db', id) := InsertRun(db, udid, trigger, now, Some(worker));
      if id.Some? then
        var state := JobState(udid, id.value, "starting", None, "");
        Started(db', states[udid := state], Ok(state), true)
      else if rowGone then Started(db, states, Err(RowGone), false)
      else
        var other := RunningRow(db, udid);
        var row := db.runs[other];
        Started(db, states, Ok(JobState(udid, other, PhaseOr(row.phase), row.percent, row.progressMessage)), false)
  }

  /** The state start hands back for a device another process is backing up. */
  predicate Reports(j: JobState, runs: map<RunId, Run>, udid: Udid, i: RunId) {
    && i in runs && runs[i].udid == udid && runs[i].status == Running
    && j == JobState(udid, i, if runs[i].phase == "" then "starting" else runs[i].phase, runs[i].percent,
                     runs[i].progressMessage)
  }

  function PhaseOr(phase: string): string {
    if phase == "" then "starting" else phase
  }

  // ---- How a run ends ----------------------------------------------------------------------

  datatype EngineEnd = Returned | NobodyConfirmed(message: string) | EngineFailed(message: string) | Crashed
  /** How the steps after a complete backup ended: the copy, its pruning, and the bookkeeping after them. */
  datatype CopyEnd = AllDone | SnapshotFailed(message: string) | Raised(taken: bool)

  /** Everything _run learns before it records the outcome; an exception up to the reading of the backup is a Crashed
      engine. */
  datatype Facts = Facts(storageOk: bool, problems: string, engine: EngineEnd, complete: bool, missing: string,
        copy: CopyEnd)

  const INTERNAL: string := "Internal error, see the container log"

  function Verdict(f: Facts): (Status, string) {
    if !f.storageOk then (Failed, "Storage check failed: " + f.problems)
    else match f.engine
      case NobodyConfirmed(m) => (NotConfirmed, m)
      case EngineFailed(m) => (Failed, m)
      case Crashed => (Failed, INTERNAL)
      case Returned =>
        if !f.complete then (Failed, "Backup incomplete: " + f.missing)
        else match f.copy
          case SnapshotFailed(m) => (Failed, "Snapshot failed: " + m)
          case Raised(_) => (Failed, INTERNAL)  // even when the generation was taken
          case AllDone => (Succeeded, "")
  }

  /** The backup reads complete, its generation was taken, and nothing raised after that. */
  predicate Complete(f: Facts) {
    f.storageOk && f.engine == Returned && f.complete && f.copy == AllDone
  }

  // ---- The tables, and one process's manager -------------------------------------------------

  class Database {
    var runs: map<RunId, Run>
    var nextId: RunId
    var workers: map<WorkerId, int>

    function View(): Db
      reads this
    {
      Db(runs, nextId, workers)
    }

    constructor ()
      ensures View() == Db(map[], 1, map[])
    {
      runs, nextId, workers := map[], 1, map[];
    }

    method Insert(udid: Udid, trigger: string, now: int, worker: Option<WorkerId>) returns (id: Option<RunId>)
      modifies this
      ensures (View(), id) == InsertRun(old(View()), udid, trigger, now, worker)
      ensures id.None? <==> exists i :: i in old(runs) && old(runs)[i].udid == udid && old(runs)[i].status == Running
      ensures id.None? ==> View() == old(View())
      ensures id.Some? ==>
        && id.value == old(nextId) && nextId == old(nextId) + 1 && workers == old(workers)
        && runs == old(runs)[id.value := Run(udid, trigger, now, None, Running, "", "starting", None, "", worker, now)]
    {
      if HasRunning(View(), udid) {
        return None;
      }
      id := Some(nextId);
      runs := runs[nextId := NewRun(udid, trigger, now, worker)];
      nextId := nextId + 1;
    }

    /** The web process's half: a running row nobody has claimed yet, or None when one is already running. */
    method MarkBackupStarting(udid: Udid, trigger: string, now: int) returns (id: Option<RunId>)
      modifies this
      ensures (View(), id) == InsertRun(old(View()), udid, trigger, now, None)
      ensures id.None? <==> exists i :: i in old(runs) && old(runs)[i].udid == udid && old(runs)[i].status == Running
      ensures id.Some? ==> id.value in runs && runs[id.value].workerId == None && runs[id.value].status == Running
    {
      id := Insert(udid, trigger, now, None);
    }

    method SweepOrphanRuns(now: int, stamp: int) returns (count: nat)
      modifies this
      ensures View() == Sweep(old(View()), now, stamp)
      ensures count == |set id | id in old(runs) && Orphaned(old(View()), id, now)|
      ensures runs.Keys == old(runs.Keys) && nextId == old(nextId) && workers == old(workers)
      ensures forall id :: id in old(runs) ==>
        var r := old(runs)[id];
        runs[id] ==
          if r.status == Running
             && (r.workerId.None? || r.workerId.value !in workers || workers[r.workerId.value] + 60 < now)
          then r.(status := Failed, finishedAt := Some(stamp), message := "Worker restarted during the backup") else r
    {
      var before := View();
      count := |set id | id in runs && Orphaned(before, id, now)|;
      runs := map id | id in runs :: Swept(before, id, now, stamp);
    }
  }

  class JobManager {
    const db: Database
    const workerId: WorkerId
    var states: map<Udid, JobState>
    var lastWrite: map<Udid, real>

    constructor (db: Database, workerId: WorkerId)
      ensures this.db == db && this.workerId == workerId && states == map[] && lastWrite == map[]
    {
      this.db, this.workerId, states, lastWrite := db, workerId, map[], map[];
    }

    /** Start a backup unless this process or, through the index, any process already runs one for the device. */
    method Start(udid: Udid, trigger: string, runId: Option<RunId>, now: int, rowGone: bool)
      returns (state: Result<JobState, StartError>, spawned: bool)
      requires OneRunning(db.View())
      modifies this`states, db
      ensures Started(db.View(), states, state, spawned)
           == StartSpec(old(db.View()), old(states), workerId, udid, trigger, runId, now, rowGone)
      ensures udid in old(states) ==>
        state == Ok(old(states)[udid]) && !spawned && states == old(states) && db.View() == old(db.View())
      ensures udid !in old(states) && runId.Some? ==>
        && spawned && state == Ok(JobState(udid, runId.value, "starting", None, ""))
        && states == old(states)[udid := state.value] && db.nextId == old(db.nextId) && db.workers == old(db.workers)
        && db.runs == if runId.value !in old(db.runs) then old(db.runs) else
             old(db.runs)[runId.value := old(db.runs)[runId.value].(workerId := Some(workerId), heartbeatAt := now)]
      ensures udid !in old(states) && runId.None? ==>
        (spawned <==>
           forall i :: i in old(db.runs) && old(db.runs)[i].udid == udid ==> old(db.runs)[i].status != Running)
      ensures udid !in old(states) && runId.None? && spawned ==>
        && state == Ok(JobState(udid, old(db.nextId), "starting", None, ""))
        && states == old(states)[udid := state.value]
        && db.runs == old(db.runs)[old(db.nextId) :=
             Run(udid, trigger, now, None, Running, "", "starting", None, "", Some(workerId), now)]
      ensures udid !in old(states) && !spawned ==>
        && states == old(states) && db.View() == old(db.View()) && (state.Err? <==> rowGone)
        && (state.Ok? ==> exists i :: Reports(state.value, db.runs, udid, i))
    {
      if udid in states {
        return Ok(states[udid]), false;
      }
      var job: JobState;
      match runId {
      case Some(id) =>
        if id in db.runs {
          db.runs := db.runs[id := db.runs[id].(workerId := Some(workerId), heartbeatAt := now)];
        }
        job := JobState(udid, id, "starting", None, "");
      case None =>
        var id := db.Insert(udid, trigger, now, Some(workerId));
        if id.None? && rowGone {
          return Err(RowGone), false;
        }
        if id.None? {
          var other :| other in db.runs && Occupies(db.runs[other], udid);
          var row := db.runs[other];
          assert Reports(JobState(udid, other, PhaseOr(row.phase), row.percent, row.progressMessage), db.runs, udid,
            other);
          return Ok(JobState(udid, other, PhaseOr(row.phase), row.percent, row.progressMessage)), false;
        }
        job := JobState(udid, id.value, "starting", None, "");
      }
      states := states[udid := job];
      state, spawned := Ok(job), true;
    }

    /** The engine's progress callback; the row is written at most once per interval. */
    method Progress(udid: Udid, phase: string, percent: Option<real>, message: string, now: int, monotonic: real)
      modifies this, db
      ensures db.nextId == old(db.nextId) && db.workers == old(db.workers)
      ensures udid !in old(states) ==>
        states == old(states) && lastWrite == old(lastWrite) && db.View() == old(db.View())
      ensures udid in old(states) ==>
        var s := old(states)[udid].(phase := phase, percent := percent, message := message);
        var last := if udid in old(lastWrite) then old(lastWrite)[udid] else 0.0;
        var due := monotonic - last >= PROGRESS_WRITE_INTERVAL;
        && states == old(states)[udid := s]
        && lastWrite == (if due then old(lastWrite)[udid := monotonic] else old(lastWrite))
        && db.View() == (if due then ProgressRow(old(db.View()), s, now) else old(db.View()))
        && db.runs == if !due || s.runId !in old(db.runs) then old(db.runs)
             else var row := old(db.runs)[s.runId];
               old(db.runs)[s.runId := row.(phase := phase, percent := percent, progressMessage := message,
                                            heartbeatAt := now)]
    {
      if udid !in states {
        return;
      }
      var s := states[udid].(phase := phase, percent := percent, message := message);
      states := states[udid := s];
      var last := if udid in lastWrite then lastWrite[udid] else 0.0;
      if monotonic - last >= PROGRESS_WRITE_INTERVAL {
        lastWrite := lastWrite[udid := monotonic];
        if s.runId in db.runs {
          db.runs := db.runs[s.runId := db.runs[s.runId].(phase := s.phase, percent := s.percent,
                                                          progressMessage := s.message, heartbeatAt := now)];
        }
      }
    }

    /** Records the end of a run: first the row, by id and unconditionally, then this process's own state. */
    method Finish(state: JobState, status: Status, message: string, now: int)
      modifies this, db
      ensures db.View() == FinishRow(old(db.View()), state.runId, status, message, now)
      ensures states == old(states) - {state.udid} && lastWrite == old(lastWrite) - {state.udid}
      ensures db.nextId == old(db.nextId) && db.workers == old(db.workers)
      ensures db.runs == if state.runId !in old(db.runs) then old(db.runs) else
        old(db.runs)[state.runId :=
          old(db.runs)[state.runId].(status := status, finishedAt := Some(now), message := message)]
    {
      if state.runId in db.runs {
        db.runs := db.runs[state.runId :=
          db.runs[state.runId].(status := status, finishedAt := Some(now), message := message)];
      }
      states := states - {state.udid};
      lastWrite := lastWrite - {state.udid};
    }

    method WriteHeartbeat(now: int)
      modifies db`workers
      ensures db.View() == Heartbeat(old(db.View()), workerId, now)
      ensures db.workers == old(db.workers)[workerId := now]
    {
      db.workers := db.workers[workerId := now];
    }
  }
}
