/**
 Web requests, worker processes, backup threads, ticks and crashes, interleaved in every order over
 one database. Each step is one SQL statement or one critical section of a JobManager.
 */
module RunProtocol {
  import opened Wrappers
  import opened Runs

  type Pid = nat
  type Tid = nat

  datatype Pc = Spawned | InEngine | Finishing | Written
  datatype Thread = Thread(pid: Pid, udid: Udid, runId: RunId, pc: Pc)
  datatype Proc = Proc(worker: WorkerId, states: map<Udid, JobState>)

  /** `queue` holds the tasks that carry a run id and are not delivered yet. */
  datatype Sys = Sys(db: Db, procs: map<Pid, Proc>, threads: map<Tid, Thread>, queue: map<RunId, Udid>)

  datatype Step =
    | Boot(pid: Pid, worker: WorkerId, now: int)                                    // ends with the first heartbeat
    | Crash(pid: Pid)
    | Beat(pid: Pid, now: int)
    | WebInsert(udid: Udid, trigger: string, now: int, enqueued: bool)              // not enqueued: the process dies
    | Deliver(pid: Pid, runId: RunId, tid: Tid, now: int)                           // start(..., run_id=...)
    | StartOwn(pid: Pid, udid: Udid, trigger: string, tid: Tid, now: int)           // start(...) of a tick or the API
    | EngineBegin(tid: Tid)
    | Report(tid: Tid, phase: string, percent: Option<real>, message: string, now: int, written: bool)
    | EngineReturns(tid: Tid)
    | FinishWrite(tid: Tid, facts: Facts, now: int)
    | FinishPop(tid: Tid)
    | SweepStep(now: int, stamp: int)

  predicate Enabled(s: Sys, e: Step) {
    match e
    case Boot(pid, _, _) => pid !in s.procs
    case Crash(pid) => pid in s.procs
    case Beat(pid, _) => pid in s.procs
    case Deliver(pid, runId, tid, _) => pid in s.procs && runId in s.queue && tid !in s.threads
    case StartOwn(pid, _, _, tid, _) => pid in s.procs && tid !in s.threads
    case EngineBegin(tid) => tid in s.threads && s.threads[tid].pc == Spawned
    case Report(tid, _, _, _, _, _) => tid in s.threads && s.threads[tid].pc == InEngine
    case EngineReturns(tid) => tid in s.threads && s.threads[tid].pc == InEngine
    case FinishWrite(tid, facts, _) =>
      tid in s.threads && if s.threads[tid].pc == Spawned then !facts.storageOk || facts.engine == Crashed
                          else s.threads[tid].pc == Finishing && facts.storageOk
    case FinishPop(tid) => tid in s.threads && s.threads[tid].pc == Written && s.threads[tid].pid in s.procs
    case _ => true
  }

  /** Whether the row behind a refused insert could still be read changes only what start returns. */
  ghost function StartIn(s: Sys, pid: Pid, udid: Udid, trigger: string, runId: Option<RunId>, tid: Tid, now: int): Sys
    requires pid in s.procs
  {
    var p := s.procs[pid];
    var r := StartSpec(s.db, p.states, p.worker, udid, trigger, runId, now, false);
    s.(db := r.db, procs := s.procs[pid := p.(states := r.states)],
       threads := if r.spawned then s.threads[tid := Thread(pid, udid, r.state.value.runId, Spawned)] else s.threads)
  }

  function AtPc(s: Sys, tid: Tid, pc: Pc): Sys
    requires tid in s.threads
  {
    s.(threads := s.threads[tid := s.threads[tid].(pc := pc)])
  }

  function ReportIn(s: Sys, tid: Tid, phase: string, percent: Option<real>, message: string, now: int,
        written: bool): Sys
    requires tid in s.threads
  {
    var t := s.threads[tid];
    if t.pid !in s.procs || t.udid !in s.procs[t.pid].states then s
    else
      var p := s.procs[t.pid];
      var j := p.states[t.udid].(phase := phase, percent := percent, message := message);
      s.(procs := s.procs[t.pid := p.(states := p.states[t.udid := j])],
         db := if written then ProgressRow(s.db, j, now) else s.db)
  }

  ghost function Next(s: Sys, e: Step): Sys
    requires Enabled(s, e)
  {
    match e
    case Boot(pid, worker, now) => s.(procs := s.procs[pid := Proc(worker, map[])], db := Heartbeat(s.db, worker, now))
    case Crash(pid) =>
      s.(procs := s.procs - {pid}, threads := map t | t in s.threads && s.threads[t].pid != pid :: s.threads[t])
    case Beat(pid, now) => s.(db := Heartbeat(s.db, s.procs[pid].worker, now))
    case WebInsert(udid, trigger, now, enqueued) =>
      var (db, id) := InsertRun(s.db, udid, trigger, now, None);
      s.(db := db, queue := if id.Some? && enqueued then s.queue[id.value := udid] else s.queue)
    case Deliver(pid, runId, tid, now) =>
      StartIn(s, pid, s.queue[runId], "manual", Some(runId), tid, now).(queue := s.queue - {runId})
    case StartOwn(pid, udid, trigger, tid, now) => StartIn(s, pid, udid, trigger, None, tid, now)
    case EngineBegin(tid) => AtPc(s, tid, InEngine)
    case Report(tid, phase, percent, message, now, written) => ReportIn(s, tid, phase, percent, message, now, written)
    case EngineReturns(tid) => AtPc(s, tid, Finishing)
    case FinishWrite(tid, facts, now) =>
      AtPc(s, tid, Written).(db := FinishRow(s.db, s.threads[tid].runId, Verdict(facts).0, Verdict(facts).1, now))
    case FinishPop(tid) =>
      var t := s.threads[tid];
      var p := s.procs[t.pid];
      s.(procs := s.procs[t.pid := p.(states := p.states - {t.udid})], threads := s.threads - {tid})
    case SweepStep(now, stamp) => s.(db := Sweep(s.db, now, stamp))
  }

  ghost predicate RunEnabled(s: Sys, run: seq<Step>)
    decreases |run|
  {
    run == [] || (Enabled(s, run[0]) && RunEnabled(Next(s, run[0]), run[1..]))
  }

  ghost function RunTo(s: Sys, run: seq<Step>): Sys
    requires RunEnabled(s, run)
    decreases |run|
  {
    if run == [] then s else RunTo(Next(s, run[0]), run[1..])
  }

  // ---- What every interleaving keeps ---------------------------------------------------------

  /** A thread's device is registered in its own process under its own run. */
  predicate Registered(s: Sys, t: Thread) {
    && t.pid in s.procs && t.udid in s.procs[t.pid].states && s.procs[t.pid].states[t.udid].runId == t.runId
    && t.runId in s.db.runs && s.db.runs[t.runId].udid == t.udid
  }

  ghost predicate DbInv(db: Db) {
    IdsBelow(db) && OneRunning(db)
  }

  ghost predicate QueueInv(s: Sys) {
    forall r :: r in s.queue ==> r in s.db.runs && s.db.runs[r].udid == s.queue[r]
  }

  ghost predicate ThreadInv(s: Sys) {
    forall t :: t in s.threads ==> Registered(s, s.threads[t]) && s.threads[t].runId !in s.queue
  }

  /** Threads have different runs, and one process never has two threads for one device. */
  ghost predicate Distinct(threads: map<Tid, Thread>) {
    forall t, u :: t in threads && u in threads && t != u ==>
      threads[t].runId != threads[u].runId && !(threads[t].pid == threads[u].pid && threads[t].udid == threads[u].udid)
  }

  ghost predicate Inv(s: Sys) {
    DbInv(s.db) && QueueInv(s) && ThreadInv(s) && Distinct(s.threads)
  }

  predicate RowsExtend(a: Db, b: Db) {
    forall id :: id in a.runs ==> id in b.runs && b.runs[id].udid == a.runs[id].udid
  }

  lemma InsertKeeps(db: Db, udid: Udid, trigger: string, now: int, worker: Option<WorkerId>)
    requires DbInv(db)
    ensures var (db', id) := InsertRun(db, udid, trigger, now, worker);
      && DbInv(db') && RowsExtend(db, db') && db'.workers == db.workers
      && (id.Some? <==> !HasRunning(db, udid))
      && (id.Some? ==> id.value !in db.runs && db'.runs == db.runs[id.value := NewRun(udid, trigger, now, worker)])
      && (id.None? ==> db' == db)
  {
  }

  lemma SweepKeeps(db: Db, now: int, stamp: int)
    requires DbInv(db)
    ensures DbInv(Sweep(db, now, stamp)) && RowsExtend(db, Sweep(db, now, stamp))
    ensures Sweep(db, now, stamp).runs.Keys == db.runs.Keys
  {
    var db' := Sweep(db, now, stamp);
    assert forall id :: id in db.runs ==> db'.runs[id] == Swept(db, id, now, stamp);
  }

  lemma FinishKeeps(db: Db, id: RunId, facts: Facts, now: int)
    requires DbInv(db)
    ensures var db' := FinishRow(db, id, Verdict(facts).0, Verdict(facts).1, now);
      DbInv(db') && RowsExtend(db, db')
  {
  }

  lemma ProgressKeeps(db: Db, j: JobState, now: int)
    requires DbInv(db)
    ensures DbInv(ProgressRow(db, j, now)) && RowsExtend(db, ProgressRow(db, j, now))
  {
  }

  lemma RowsKeepInv(s: Sys, db: Db)
    requires Inv(s) && DbInv(db) && RowsExtend(s.db, db)
    ensures Inv(s.(db := db))
  {
    hide DbInv;
  }

  lemma PcKeepsInv(s: Sys, tid: Tid, pc: Pc)
    requires Inv(s) && tid in s.threads
    ensures Inv(AtPc(s, tid, pc))
  {
    hide DbInv;
  }

  /** A new thread under a run no other thread and no queued task has. */
  lemma SpawnKeepsInv(s: Sys, pid: Pid, tid: Tid, state: JobState)
    requires Inv(s) && pid in s.procs && tid !in s.threads
    requires state.udid !in s.procs[pid].states && state.runId !in s.queue
    requires state.runId in s.db.runs && s.db.runs[state.runId].udid == state.udid
    requires forall t :: t in s.threads ==> s.threads[t].runId != state.runId
    ensures Inv(s.(procs := s.procs[pid := s.procs[pid].(states := s.procs[pid].states[state.udid := state])],
                   threads := s.threads[tid := Thread(pid, state.udid, state.runId, Spawned)]))
  {
    hide DbInv;
  }

  lemma DequeueKeepsInv(s: Sys, runId: RunId)
    requires Inv(s)
    ensures Inv(s.(queue := s.queue - {runId}))
  {
    hide DbInv;
  }

  lemma ClaimKeepsInv(s: Sys, pid: Pid, runId: RunId, tid: Tid, now: int)
    requires Inv(s) && Enabled(s, Deliver(pid, runId, tid, now))
    ensures Inv(Next(s, Deliver(pid, runId, tid, now)))
  {
    hide DbInv, RowsExtend, Claim, Distinct;
    var p, udid := s.procs[pid], s.queue[runId];
    var s1 := s.(queue := s.queue - {runId});
    DequeueKeepsInv(s, runId);
    if udid in p.states {
      assert Next(s, Deliver(pid, runId, tid, now)) == s1.(procs := s1.procs[pid := p.(states := p.states)]);
      assert s1.procs[pid := p.(states := p.states)] == s1.procs;
    } else {
      var db := Claim(s.db, runId, p.worker, now);
      ClaimIsUpdate(s.db, runId, p.worker, now);
      RowsKeepInv(s1, db);
      SpawnKeepsInv(s1.(db := db), pid, tid, JobState(udid, runId, "starting", None, ""));
    }
  }

  lemma ClaimIsUpdate(db: Db, id: RunId, worker: WorkerId, now: int)
    requires DbInv(db)
    ensures DbInv(Claim(db, id, worker, now)) && RowsExtend(db, Claim(db, id, worker, now))
    ensures id in db.runs ==>
      id in Claim(db, id, worker, now).runs && Claim(db, id, worker, now).runs[id].udid == db.runs[id].udid
  {
  }

  lemma StartOwnKeepsInv(s: Sys, pid: Pid, udid: Udid, trigger: string, tid: Tid, now: int)
    requires Inv(s) && Enabled(s, StartOwn(pid, udid, trigger, tid, now))
    ensures Inv(Next(s, StartOwn(pid, udid, trigger, tid, now)))
  {
    hide DbInv, RowsExtend, InsertRun, Distinct;
    var p := s.procs[pid];
    var (db, id) := InsertRun(s.db, udid, trigger, now, Some(p.worker));
    InsertKeeps(s.db, udid, trigger, now, Some(p.worker));
    if udid in p.states || id.None? {
      assert s.procs[pid := p.(states := p.states)] == s.procs;
    } else {
      RowsKeepInv(s, db);
      SpawnKeepsInv(s.(db := db), pid, tid, JobState(udid, id.value, "starting", None, ""));
    }
  }

  lemma WebKeepsInv(s: Sys, udid: Udid, trigger: string, now: int, enqueued: bool)
    requires Inv(s)
    ensures Inv(Next(s, WebInsert(udid, trigger, now, enqueued)))
  {
    hide DbInv, InsertRun, Distinct;
    InsertKeeps(s.db, udid, trigger, now, None);
  }

  lemma ReportKeepsInv(s: Sys, tid: Tid, phase: string, percent: Option<real>, message: string, now: int, written: bool)
    requires Inv(s) && tid in s.threads
    ensures Inv(ReportIn(s, tid, phase, percent, message, now, written))
  {
    var t := s.threads[tid];
    var j := s.procs[t.pid].states[t.udid].(phase := phase, percent := percent, message := message);
    ProgressKeeps(s.db, j, now);
    hide DbInv, ProgressRow, Distinct;
    if written {
      RowsKeepInv(s, ProgressRow(s.db, j, now));
    }
  }

  lemma PopKeepsInv(s: Sys, tid: Tid)
    requires Inv(s) && Enabled(s, FinishPop(tid))
    ensures Inv(Next(s, FinishPop(tid)))
  {
    hide DbInv;
  }

  lemma ProcsKeepInv(s: Sys, pid: Pid, worker: WorkerId, now: int)
    requires Inv(s)
    ensures pid !in s.procs ==> Inv(Next(s, Boot(pid, worker, now)))
    ensures pid in s.procs ==> Inv(Next(s, Crash(pid)))
  {
    HeartbeatKeeps(s.db, worker, now);
    hide DbInv;
  }

  lemma NextKeepsInv(s: Sys, e: Step)
    requires Inv(s) && Enabled(s, e)
    ensures Inv(Next(s, e))
  {
    hide DbInv, QueueInv, ThreadInv, Distinct, RowsExtend, InsertRun, Sweep, Claim, FinishRow, ProgressRow, StartIn,
      ReportIn;
    match e
    case Boot(pid, worker, now) => ProcsKeepInv(s, pid, worker, now);
    case Crash(pid) => ProcsKeepInv(s, pid, "", 0);
    case Beat(pid, now) =>
      HeartbeatKeeps(s.db, s.procs[pid].worker, now);
      RowsKeepInv(s, Heartbeat(s.db, s.procs[pid].worker, now));
    case WebInsert(udid, trigger, now, enqueued) => WebKeepsInv(s, udid, trigger, now, enqueued);
    case Deliver(pid, runId, tid, now) => ClaimKeepsInv(s, pid, runId, tid, now);
    case StartOwn(pid, udid, trigger, tid, now) => StartOwnKeepsInv(s, pid, udid, trigger, tid, now);
    case EngineBegin(tid) => PcKeepsInv(s, tid, InEngine);
    case Report(tid, phase, percent, message, now, written) => ReportKeepsInv(s, tid, phase, percent, message, now,
      written);
    case EngineReturns(tid) => PcKeepsInv(s, tid, Finishing);
    case FinishWrite(tid, facts, now) =>
      FinishKeeps(s.db, s.threads[tid].runId, facts, now);
      PcKeepsInv(s, tid, Written);
      RowsKeepInv(AtPc(s, tid, Written),
        FinishRow(s.db, s.threads[tid].runId, Verdict(facts).0, Verdict(facts).1, now));
    case FinishPop(tid) => PopKeepsInv(s, tid);
    case SweepStep(now, stamp) =>
      SweepKeeps(s.db, now, stamp);
      RowsKeepInv(s, Sweep(s.db, now, stamp));
  }

  lemma HeartbeatKeeps(db: Db, worker: WorkerId, now: int)
    ensures DbInv(db) ==> DbInv(Heartbeat(db, worker, now))
    ensures RowsExtend(db, Heartbeat(db, worker, now))
  {
  }

  lemma {:induction false} InvKept(s: Sys, run: seq<Step>)
    requires Inv(s) && RunEnabled(s, run)
    ensures Inv(RunTo(s, run))
    decreases |run|
  {
    hide Inv, Enabled, Next;
    if run == [] {
    } else {
      NextKeepsInv(s, run[0]);
      InvKept(Next(s, run[0]), run[1..]);
    }
  }
}
