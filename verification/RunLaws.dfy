/** Safety and recovery over every run of the protocol. */
module RunLaws {
  import opened Wrappers
  import opened Runs
  import opened RunProtocol

  // ---- One process --------------------------------------------------------------------------

  predicate Active(t: Thread) {
    t.pc != Written
  }

  /** With no hypothesis at all, one process never has two threads, so never two engines, for one device. */
  lemma OneThreadPerProcess(s: Sys, run: seq<Step>, t: Tid, u: Tid)
    requires Inv(s) && RunEnabled(s, run)
    requires var e := RunTo(s, run);
      t in e.threads && u in e.threads && e.threads[t].pid == e.threads[u].pid && e.threads[t].udid == e.threads[u].udid
    ensures t == u
  {
    InvKept(s, run);
  }

  /** The empty installation, before any process starts. */
  const EMPTY: Sys := Sys(Db(map[], 1, map[]), map[], map[], map[])

  lemma NothingYetIsGood(device: Udid)
    ensures Good(EMPTY, device)
  {
  }

  // ---- Across processes ---------------------------------------------------------------------

  predicate Held(s: Sys, t: Thread) {
    t.pid in s.procs && t.runId in s.db.runs && s.db.runs[t.runId].status == Running
    && s.db.runs[t.runId].workerId == Some(s.procs[t.pid].worker)
  }

  predicate Unclaimed(s: Sys, r: RunId) {
    r in s.db.runs && s.db.runs[r].status == Running && s.db.runs[r].workerId == None
  }

  ghost predicate AllHeld(s: Sys, device: Udid) {
    forall t :: t in s.threads && Active(s.threads[t]) && s.threads[t].udid == device ==> Held(s, s.threads[t])
  }

  ghost predicate AllUnclaimed(s: Sys, device: Udid) {
    forall r :: r in s.queue && s.queue[r] == device ==> Unclaimed(s, r)
  }

  /** Every active thread of the device still owns its running row, and the row of every queued task of the device
      still waits for its claim. */
  ghost predicate Good(s: Sys, device: Udid) {
    Inv(s) && AllHeld(s, device) && AllUnclaimed(s, device)
  }

  /** No task of the device waits between its insert and its claim, and every process with an active thread for it has
      a recent heartbeat. */
  predicate SweepIsSafe(s: Sys, now: int, device: Udid) {
    && (forall r :: r in s.queue ==> s.queue[r] != device)
    && forall t :: t in s.threads && Active(s.threads[t]) && s.threads[t].udid == device ==>
         s.threads[t].pid in s.procs && !WorkerGone(s.db.workers, Some(s.procs[s.threads[t].pid].worker), now)
  }

  predicate SafeStep(s: Sys, e: Step, device: Udid) {
    e.SweepStep? ==> SweepIsSafe(s, e.now, device)
  }

  /** Rows keep their status and owner. */
  predicate SameHolders(a: Db, b: Db) {
    forall id :: id in a.runs ==>
      id in b.runs && b.runs[id].status == a.runs[id].status && b.runs[id].workerId == a.runs[id].workerId
  }

  lemma SameHoldersGood(s: Sys, db: Db, device: Udid)
    requires AllHeld(s, device) && AllUnclaimed(s, device) && SameHolders(s.db, db)
    ensures AllHeld(s.(db := db), device) && AllUnclaimed(s.(db := db), device)
  {
  }

  lemma QuietStepGood(s: Sys, e: Step, device: Udid)
    requires Good(s, device) && Enabled(s, e)
    requires e.Boot? || e.Crash? || e.Beat? || e.EngineBegin? || e.EngineReturns? || e.FinishPop?
    ensures AllHeld(Next(s, e), device) && AllUnclaimed(Next(s, e), device)
  {
    hide DbInv, QueueInv, Distinct;
  }

  lemma ReportGood(s: Sys, e: Step, device: Udid)
    requires Good(s, device) && Enabled(s, e) && e.Report?
    ensures AllHeld(Next(s, e), device) && AllUnclaimed(Next(s, e), device)
  {
    var t := s.threads[e.tid];
    var j := s.procs[t.pid].states[t.udid].(phase := e.phase, percent := e.percent, message := e.message);
    assert SameHolders(s.db, ProgressRow(s.db, j, e.now));
    SameHoldersGood(s, ProgressRow(s.db, j, e.now), device);
    hide DbInv, QueueInv, Distinct, ProgressRow;
  }

  lemma WebGood(s: Sys, e: Step, device: Udid)
    requires Good(s, device) && Enabled(s, e) && e.WebInsert?
    ensures AllHeld(Next(s, e), device) && AllUnclaimed(Next(s, e), device)
  {
    InsertKeeps(s.db, e.udid, e.trigger, e.now, None);
    var (db, id) := InsertRun(s.db, e.udid, e.trigger, e.now, None);
    hide DbInv, QueueInv, Distinct, InsertRun;
    assert SameHolders(s.db, db);
    SameHoldersGood(s, db, device);
  }

  lemma DeliverGood(s: Sys, e: Step, device: Udid)
    requires Good(s, device) && Enabled(s, e) && e.Deliver?
    ensures AllHeld(Next(s, e), device) && AllUnclaimed(Next(s, e), device)
  {
    var s' := Next(s, e);
    forall t | t in s'.threads && Active(s'.threads[t]) && s'.threads[t].udid == device
      ensures Held(s', s'.threads[t])
    {
      DeliverHolds(s, e, t, device);
    }
    forall r | r in s'.queue && s'.queue[r] == device ensures Unclaimed(s', r) {
      DeliverLeavesOthers(s, e, r);
      assert Unclaimed(s, r);
    }
    hide Inv, StartIn, Held, Unclaimed;
  }

  /** A delivery changes at most the row it claims. */
  lemma DeliverLeavesOthers(s: Sys, e: Step, r: RunId)
    requires Enabled(s, e) && e.Deliver? && r != e.runId
    ensures r in s.db.runs ==> r in Next(s, e).db.runs && Next(s, e).db.runs[r] == s.db.runs[r]
    ensures r in Next(s, e).queue ==> r in s.queue && s.queue[r] == Next(s, e).queue[r]
    ensures Unclaimed(s, r) ==> Unclaimed(Next(s, e), r)
  {
  }

  lemma DeliverHolds(s: Sys, e: Step, t: Tid, device: Udid)
    requires Good(s, device) && Enabled(s, e) && e.Deliver?
    requires var s' := Next(s, e); t in s'.threads && Active(s'.threads[t]) && s'.threads[t].udid == device
    ensures Held(Next(s, e), Next(s, e).threads[t])
  {
    if t in s.threads {
      assert s.threads[t].runId != e.runId && Held(s, s.threads[t]);
    } else {
      assert Unclaimed(s, e.runId);
    }
    hide DbInv, QueueInv, Distinct;
  }

  lemma StartOwnGood(s: Sys, e: Step, device: Udid)
    requires Good(s, device) && Enabled(s, e) && e.StartOwn?
    ensures AllHeld(Next(s, e), device) && AllUnclaimed(Next(s, e), device)
  {
    var p := s.procs[e.pid];
    var (db, id) := InsertRun(s.db, e.udid, e.trigger, e.now, Some(p.worker));
    InsertKeeps(s.db, e.udid, e.trigger, e.now, Some(p.worker));
    assert SameHolders(s.db, db);
    SameHoldersGood(s, db, device);
    hide Inv, InsertRun, AllHeld, AllUnclaimed, SameHolders, RowsExtend, HasRunning;
    if e.udid in p.states || id.None? {
      assert Next(s, e).procs == s.procs && Next(s, e).threads == s.threads;
      assert Next(s, e) == s;
    } else {
      OwnThreadHeld(s, e, db, id.value, device);
    }
  }

  lemma OwnThreadHeld(s: Sys, e: Step, db: Db, id: RunId, device: Udid)
    requires Enabled(s, e) && e.StartOwn? && e.udid !in s.procs[e.pid].states
    requires InsertRun(s.db, e.udid, e.trigger, e.now, Some(s.procs[e.pid].worker)) == (db, Some(id))
    requires AllHeld(s.(db := db), device) && AllUnclaimed(s.(db := db), device)
    ensures AllHeld(Next(s, e), device) && AllUnclaimed(Next(s, e), device)
  {
    var s' := Next(s, e);
    assert s'.db == db && s'.queue == s.queue && s'.threads == s.threads[e.tid := Thread(e.pid, e.udid, id, Spawned)];
    hide HasRunning;
    forall t | t in s.threads && t != e.tid && Active(s.threads[t]) && s.threads[t].udid == device
      ensures Held(s', s.threads[t])
    {
      assert Held(s.(db := db), s.threads[t]);
    }
    forall r | r in s.queue && s.queue[r] == device ensures Unclaimed(s', r) {
      assert Unclaimed(s.(db := db), r);
    }
  }

  lemma FinishWriteGood(s: Sys, e: Step, device: Udid)
    requires Good(s, device) && Enabled(s, e) && e.FinishWrite?
    ensures AllHeld(Next(s, e), device) && AllUnclaimed(Next(s, e), device)
  {
    assert s.threads[e.tid].runId !in s.queue;
    hide DbInv, QueueInv;
    forall t | t in s.threads && t != e.tid && Active(s.threads[t]) && s.threads[t].udid == device
      ensures Held(Next(s, e), s.threads[t])
    {
      assert s.threads[t].runId != s.threads[e.tid].runId && Held(s, s.threads[t]);
    }
  }

  lemma SafeSweepGood(s: Sys, now: int, stamp: int, device: Udid)
    requires Good(s, device) && SweepIsSafe(s, now, device)
    ensures var s' := Next(s, SweepStep(now, stamp)); AllHeld(s', device) && AllUnclaimed(s', device)
  {
    var s' := Next(s, SweepStep(now, stamp));
    assert forall id :: id in s.db.runs ==> s'.db.runs[id] == Swept(s.db, id, now, stamp);
    hide Inv, Sweep;
    forall t | t in s'.threads && Active(s'.threads[t]) && s'.threads[t].udid == device
      ensures Held(s', s'.threads[t])
    {
      assert Held(s, s.threads[t]);
    }
  }

  lemma SweepHitsQueued(s: Sys, now: int, stamp: int, r: RunId, device: Udid)
    requires r in s.queue && s.queue[r] == device && Unclaimed(s, r)
    ensures !AllUnclaimed(Next(s, SweepStep(now, stamp)), device)
  {
    var s' := Next(s, SweepStep(now, stamp));
    assert s'.db.runs[r] == Swept(s.db, r, now, stamp);
    assert r in s'.queue && !Unclaimed(s', r);
  }

  lemma SweepHitsThread(s: Sys, now: int, stamp: int, t: Tid, device: Udid)
    requires t in s.threads && Active(s.threads[t]) && s.threads[t].udid == device && Held(s, s.threads[t])
    requires WorkerGone(s.db.workers, Some(s.procs[s.threads[t].pid].worker), now)
    ensures !AllHeld(Next(s, SweepStep(now, stamp)), device)
  {
    var s' := Next(s, SweepStep(now, stamp));
    assert s'.db.runs[s.threads[t].runId] == Swept(s.db, s.threads[t].runId, now, stamp);
    assert t in s'.threads && Active(s'.threads[t]) && !Held(s', s'.threads[t]);
  }

  /** A sweep leaves the running backups of a device alone exactly when no task of the device waits for its claim and
      the workers that back it up have fresh heartbeats; other devices do not matter. */
  lemma SweepGoodIff(s: Sys, now: int, stamp: int, device: Udid)
    requires Good(s, device)
    ensures Good(Next(s, SweepStep(now, stamp)), device) <==> SweepIsSafe(s, now, device)
  {
    NextKeepsInv(s, SweepStep(now, stamp));
    if SweepIsSafe(s, now, device) {
      SafeSweepGood(s, now, stamp, device);
    } else if r :| r in s.queue && s.queue[r] == device {
      SweepHitsQueued(s, now, stamp, r, device);
    } else {
      var t :| t in s.threads && Active(s.threads[t]) && s.threads[t].udid == device &&
        !(s.threads[t].pid in s.procs && !WorkerGone(s.db.workers, Some(s.procs[s.threads[t].pid].worker), now));
      assert Held(s, s.threads[t]);
      SweepHitsThread(s, now, stamp, t, device);
    }
    hide Inv, AllHeld, AllUnclaimed, SweepIsSafe, Next, Held, WorkerGone;
  }

  lemma NextKeepsGood(s: Sys, e: Step, device: Udid)
    requires Good(s, device) && Enabled(s, e) && SafeStep(s, e, device)
    ensures Good(Next(s, e), device)
  {
    NextKeepsInv(s, e);
    hide Inv, AllHeld, AllUnclaimed, Next, SweepIsSafe;
    match e
    case WebInsert(_, _, _, _) => WebGood(s, e, device);
    case Deliver(_, _, _, _) => DeliverGood(s, e, device);
    case StartOwn(_, _, _, _, _) => StartOwnGood(s, e, device);
    case Report(_, _, _, _, _, _) => ReportGood(s, e, device);
    case FinishWrite(_, _, _) => FinishWriteGood(s, e, device);
    case SweepStep(now, stamp) => SweepGoodIff(s, now, stamp, device);
    case _ => QuietStepGood(s, e, device);
  }

  ghost predicate SafeRun(s: Sys, run: seq<Step>, device: Udid)
    requires RunEnabled(s, run)
    decreases |run|
  {
    run == [] || (SafeStep(s, run[0], device) && SafeRun(Next(s, run[0]), run[1..], device))
  }

  lemma {:induction false} GoodKept(s: Sys, run: seq<Step>, device: Udid)
    requires Good(s, device) && RunEnabled(s, run) && SafeRun(s, run, device)
    ensures Good(RunTo(s, run), device)
    decreases |run|
  {
    hide Good, Enabled, Next, SafeStep;
    if run == [] {
    } else {
      NextKeepsGood(s, run[0], device);
      GoodKept(Next(s, run[0]), run[1..], device);
    }
  }

  /** At most one backup thread, so at most one engine, runs for a device in the whole system, whatever the
      interleaving and whatever happens to other devices. */
  lemma MutualExclusion(s: Sys, run: seq<Step>, device: Udid, t: Tid, u: Tid)
    requires Good(s, device) && RunEnabled(s, run) && SafeRun(s, run, device)
    requires var e := RunTo(s, run);
      && t in e.threads && Active(e.threads[t]) && e.threads[t].udid == device
      && u in e.threads && Active(e.threads[u]) && e.threads[u].udid == device
    ensures t == u
  {
    GoodKept(s, run, device);
    var e := RunTo(s, run);
    assert Held(e, e.threads[t]) && Held(e, e.threads[u]);
    assert Registered(e, e.threads[t]) && Registered(e, e.threads[u]);
    assert Occupies(e.db.runs[e.threads[t].runId], device) && Occupies(e.db.runs[e.threads[u].runId], device);
  }

  /** So from the empty installation on. */
  lemma AtMostOneBackup(run: seq<Step>, device: Udid, t: Tid, u: Tid)
    requires RunEnabled(EMPTY, run) && SafeRun(EMPTY, run, device)
    requires var e := RunTo(EMPTY, run);
      && t in e.threads && Active(e.threads[t]) && e.threads[t].udid == device
      && u in e.threads && Active(e.threads[u]) && e.threads[u].udid == device
    ensures t == u
  {
    NothingYetIsGood(device);
    MutualExclusion(EMPTY, run, device, t, u);
  }

  const SWEPT_MESSAGE: string := "Worker restarted during the backup"

  // ---- No row ever returns to running ---------------------------------------------------------

  /** From a to b no row is lost, renamed or revived. */
  predicate NoRevival(a: Db, b: Db) {
    forall id :: id in a.runs ==>
      id in b.runs && b.runs[id].udid == a.runs[id].udid
      && (a.runs[id].status != Running ==> b.runs[id].status != Running)
  }

  lemma ClaimRevivesNothing(db: Db, id: RunId, worker: WorkerId, now: int)
    ensures NoRevival(db, Claim(db, id, worker, now))
  {
  }

  lemma ProgressRevivesNothing(db: Db, j: JobState, now: int)
    ensures NoRevival(db, ProgressRow(db, j, now))
  {
  }

  lemma FinishRevivesNothing(db: Db, id: RunId, facts: Facts, now: int)
    ensures NoRevival(db, FinishRow(db, id, Verdict(facts).0, Verdict(facts).1, now))
  {
  }

  lemma SweepRevivesNothing(db: Db, now: int, stamp: int)
    ensures NoRevival(db, Sweep(db, now, stamp))
  {
    assert forall id :: id in db.runs ==> Sweep(db, now, stamp).runs[id] == Swept(db, id, now, stamp);
  }

  lemma InsertRevivesNothing(db: Db, udid: Udid, trigger: string, now: int, worker: Option<WorkerId>)
    requires IdsBelow(db)
    ensures NoRevival(db, InsertRun(db, udid, trigger, now, worker).0)
  {
    assert db.nextId !in db.runs;
  }

  lemma StartRevivesNothing(s: Sys, pid: Pid, udid: Udid, trigger: string, runId: Option<RunId>, tid: Tid, now: int)
    requires IdsBelow(s.db) && pid in s.procs
    ensures NoRevival(s.db, StartIn(s, pid, udid, trigger, runId, tid, now).db)
  {
    var p := s.procs[pid];
    InsertRevivesNothing(s.db, udid, trigger, now, Some(p.worker));
    if runId.Some? {
      ClaimRevivesNothing(s.db, runId.value, p.worker, now);
    }
    hide InsertRun, Claim, NoRevival;
    assert NoRevival(s.db, s.db) by {
      NothingRevivesNothing(s.db);
    }
  }

  lemma NothingRevivesNothing(db: Db)
    ensures NoRevival(db, db)
    ensures forall w, now :: NoRevival(db, Heartbeat(db, w, now))
  {
  }

  lemma NextRevivesNothing(s: Sys, e: Step)
    requires Inv(s) && Enabled(s, e)
    ensures NoRevival(s.db, Next(s, e).db)
  {
    NothingRevivesNothing(s.db);
    assert IdsBelow(s.db);
    hide Inv, NoRevival, InsertRun, Sweep, Claim, FinishRow, ProgressRow, StartIn, Heartbeat;
    match e
    case WebInsert(udid, trigger, now, _) => InsertRevivesNothing(s.db, udid, trigger, now, None);
    case Deliver(pid, runId, tid, now) => StartRevivesNothing(s, pid, s.queue[runId], "manual", Some(runId), tid, now);
    case StartOwn(pid, udid, trigger, tid, now) => StartRevivesNothing(s, pid, udid, trigger, None, tid, now);
    case Report(tid, phase, percent, message, now, _) =>
      var t := s.threads[tid];
      if t.pid in s.procs && t.udid in s.procs[t.pid].states {
        ProgressRevivesNothing(s.db,
          s.procs[t.pid].states[t.udid].(phase := phase, percent := percent, message := message), now);
      }
    case FinishWrite(tid, facts, now) =>
      FinishRevivesNothing(s.db, s.threads[tid].runId, facts, now);
    case SweepStep(now, stamp) => SweepRevivesNothing(s.db, now, stamp);
    case _ =>
  }

  /** A row never disappears and, once ended, never runs again; a device never has two running rows. */
  lemma {:induction false} EndedStaysEnded(s: Sys, run: seq<Step>, id: RunId)
    requires Inv(s) && RunEnabled(s, run) && id in s.db.runs
    ensures id in RunTo(s, run).db.runs && RunTo(s, run).db.runs[id].udid == s.db.runs[id].udid
    ensures s.db.runs[id].status != Running ==> RunTo(s, run).db.runs[id].status != Running
    ensures OneRunning(RunTo(s, run).db)
    decreases |run|
  {
    if run == [] {
    } else {
      NextKeepsInv(s, run[0]);
      NextRevivesNothing(s, run[0]);
      assert NoRevival(s.db, Next(s, run[0]).db);
      hide Inv, Next;
      EndedStaysEnded(Next(s, run[0]), run[1..], id);
    }
  }

  /** After a sweep at `now`, a row still runs iff it ran before under a worker heard from within the threshold. */
  lemma SweepLeavesOnlyLive(db: Db, now: int, stamp: int, id: RunId)
    requires id in db.runs
    ensures id in Sweep(db, now, stamp).runs
    ensures Sweep(db, now, stamp).runs[id].status == Running
       <==> && db.runs[id].status == Running && db.runs[id].workerId.Some?
            && db.runs[id].workerId.value in db.workers
            && now - ORPHAN_THRESHOLD <= db.workers[db.runs[id].workerId.value]
    ensures Sweep(db, now, stamp).runs[id].status != Running && db.runs[id].status != Running ==>
            Sweep(db, now, stamp).runs[id] == db.runs[id]
  {
    assert Sweep(db, now, stamp).runs[id] == Swept(db, id, now, stamp);
  }

  /** No stuck runs: whatever happened before, after a sweep every row that still runs names a registered worker heard
      from within the threshold, and no device has two. */
  lemma NoStuckRuns(s: Sys, run: seq<Step>, now: int, stamp: int, id: RunId)
    requires Inv(s) && RunEnabled(s, run)
    ensures var e := Next(RunTo(s, run), SweepStep(now, stamp));
      && OneRunning(e.db)
      && (id in e.db.runs && e.db.runs[id].status == Running ==>
            && e.db.runs[id].workerId.Some? && e.db.runs[id].workerId.value in e.db.workers
            && now - ORPHAN_THRESHOLD <= e.db.workers[e.db.runs[id].workerId.value])
  {
    var e := RunTo(s, run);
    InvKept(s, run);
    NextKeepsInv(e, SweepStep(now, stamp));
    SweepKeeps(e.db, now, stamp);
    if id in e.db.runs {
      SweepLeavesOnlyLive(e.db, now, stamp, id);
      assert Sweep(e.db, now, stamp).runs[id] == Swept(e.db, id, now, stamp);
    }
    hide RunTo, OneRunning, RunEnabled;
  }

  // ---- How a run ends ------------------------------------------------------------------------

  predicate FinishesRun(s: Sys, e: Step, id: RunId) {
    e.FinishWrite? && e.tid in s.threads && s.threads[e.tid].runId == id
  }

  /** The last recorded end of the run: what it knew, and when it was written. */
  ghost function LastEnd(s: Sys, run: seq<Step>, id: RunId): Option<(Facts, int)>
    requires RunEnabled(s, run)
    decreases |run|
  {
    if run == [] then None
    else
      var later := LastEnd(Next(s, run[0]), run[1..], id);
      if later.Some? then later
      else if FinishesRun(s, run[0], id) then Some((run[0].facts, run[0].now))
      else None
  }

  predicate Ended(db: Db, id: RunId) {
    id in db.runs && db.runs[id].status != Running
  }

  /** The status and the message that belong to what a run learned. */
  predicate EndsAs(r: Run, f: Facts) {
    && (r.status == NotConfirmed <==> f.storageOk && f.engine.NobodyConfirmed?)
    && (r.status == Succeeded <==> f.storageOk && f.engine == Returned && f.complete && f.copy == AllDone)
    && r.status in {NotConfirmed, Succeeded, Failed}
    && (!f.storageOk ==> r.message == "Storage check failed: " + f.problems)
    && (f.storageOk && f.engine.NobodyConfirmed? ==> r.message == f.engine.message)
    && (f.storageOk && f.engine.EngineFailed? ==> r.message == f.engine.message)
    && (f.storageOk && f.engine == Crashed ==> r.message == "Internal error, see the container log")
    && (f.storageOk && f.engine == Returned ==>
          && (!f.complete ==> r.message == "Backup incomplete: " + f.missing)
          && (f.complete && f.copy.SnapshotFailed? ==> r.message == "Snapshot failed: " + f.copy.message)
          && (f.complete && f.copy.Raised? ==> r.message == "Internal error, see the container log")
          && (f.complete && f.copy == AllDone ==> r.message == ""))
  }

  /** No end was recorded between a and b: an ended row kept its end, and a running or new one runs or was swept. */
  predicate NoEndBetween(a: Db, b: Db, id: RunId) {
    && (Ended(a, id) ==> id in b.runs && SameEnd(a.runs[id], b.runs[id]))
    && (!Ended(a, id) && id in b.runs ==>
          b.runs[id].status == Running || (b.runs[id].status == Failed && b.runs[id].message == SWEPT_MESSAGE))
    && (id in a.runs ==> id in b.runs)
  }

  predicate SameEnd(r: Run, q: Run) {
    q.status == r.status && q.message == r.message && q.finishedAt == r.finishedAt
  }

  lemma VerdictIsEnd(r: Run, f: Facts)
    requires r.status == Verdict(f).0 && r.message == Verdict(f).1
    ensures EndsAs(r, f)
  {
  }

  lemma FinishRecords(s: Sys, e: Step, id: RunId)
    requires Inv(s) && Enabled(s, e) && FinishesRun(s, e, id)
    ensures var db := Next(s, e).db;
      id in db.runs && EndsAs(db.runs[id], e.facts) && db.runs[id].finishedAt == Some(e.now)
  {
    assert Registered(s, s.threads[e.tid]);
    VerdictIsEnd(Next(s, e).db.runs[id], e.facts);
    hide Inv, Verdict, EndsAs;
  }

  lemma SameRunsNoEnd(a: Db, b: Db, id: RunId)
    requires a.runs == b.runs
    ensures NoEndBetween(a, b, id)
  {
  }

  lemma InsertNoEnd(db: Db, udid: Udid, trigger: string, now: int, worker: Option<WorkerId>, id: RunId)
    requires IdsBelow(db)
    ensures NoEndBetween(db, InsertRun(db, udid, trigger, now, worker).0, id)
  {
  }

  lemma StartNoEnd(s: Sys, pid: Pid, udid: Udid, trigger: string, runId: Option<RunId>, tid: Tid, now: int, id: RunId)
    requires IdsBelow(s.db) && pid in s.procs
    ensures NoEndBetween(s.db, StartIn(s, pid, udid, trigger, runId, tid, now).db, id)
  {
    InsertNoEnd(s.db, udid, trigger, now, Some(s.procs[pid].worker), id);
    SameRunsNoEnd(s.db, s.db, id);
    if runId.Some? {
      ClaimNoEnd(s.db, runId.value, s.procs[pid].worker, now, id);
    }
    hide InsertRun, Claim, NoEndBetween;
  }

  lemma ClaimNoEnd(db: Db, claimed: RunId, worker: WorkerId, now: int, id: RunId)
    ensures NoEndBetween(db, Claim(db, claimed, worker, now), id)
  {
  }

  lemma ReportNoEnd(db: Db, j: JobState, now: int, id: RunId)
    ensures NoEndBetween(db, ProgressRow(db, j, now), id)
  {
  }

  lemma SweepNoEnd(db: Db, now: int, stamp: int, id: RunId)
    ensures NoEndBetween(db, Sweep(db, now, stamp), id)
  {
    assert id in db.runs ==> Sweep(db, now, stamp).runs[id] == Swept(db, id, now, stamp);
  }

  lemma OtherFinishNoEnd(s: Sys, e: Step, id: RunId)
    requires Enabled(s, e) && e.FinishWrite? && !FinishesRun(s, e, id)
    ensures NoEndBetween(s.db, Next(s, e).db, id)
  {
    hide Verdict;
  }

  lemma NextNoEnd(s: Sys, e: Step, id: RunId)
    requires Inv(s) && Enabled(s, e) && !FinishesRun(s, e, id)
    ensures NoEndBetween(s.db, Next(s, e).db, id)
  {
    assert IdsBelow(s.db);
    hide Inv, InsertRun, Sweep, StartIn, ProgressRow, NoEndBetween, FinishesRun, Verdict, FinishRow;
    match e
    case WebInsert(udid, trigger, now, _) => InsertNoEnd(s.db, udid, trigger, now, None, id);
    case Deliver(pid, runId, tid, now) => StartNoEnd(s, pid, s.queue[runId], "manual", Some(runId), tid, now, id);
    case StartOwn(pid, udid, trigger, tid, now) => StartNoEnd(s, pid, udid, trigger, None, tid, now, id);
    case Report(tid, phase, percent, message, now, _) =>
      SameRunsNoEnd(s.db, s.db, id);
      var t := s.threads[tid];
      if t.pid in s.procs && t.udid in s.procs[t.pid].states {
        ReportNoEnd(s.db, s.procs[t.pid].states[t.udid].(phase := phase, percent := percent, message := message),
          now, id);
      }
    case FinishWrite(_, _, _) => OtherFinishNoEnd(s, e, id);
    case SweepStep(now, stamp) => SweepNoEnd(s.db, now, stamp, id);
    case _ => SameRunsNoEnd(s.db, Next(s, e).db, id);
  }

  lemma NoFinish(s: Sys, e: Step, id: RunId)
    ensures !e.FinishWrite? ==> !FinishesRun(s, e, id)
  {
  }

  lemma NoEndJoins(a: Db, b: Db, c: Db, id: RunId)
    requires NoEndBetween(a, b, id) && NoEndBetween(b, c, id)
    ensures NoEndBetween(a, c, id)
  {
  }

  lemma EndKept(a: Db, b: Db, id: RunId, f: Facts, at: int)
    requires NoEndBetween(a, b, id) && id in a.runs && EndsAs(a.runs[id], f) && a.runs[id].finishedAt == Some(at)
    ensures id in b.runs && EndsAs(b.runs[id], f) && b.runs[id].finishedAt == Some(at)
  {
  }

  /** Over every run of the protocol: a row reads exactly as its last recorded end says, status, message and time,
      whatever sweeps came before or after; if none was recorded, an ended row reads as at the start and any other
      runs or was swept. */
  lemma {:induction false} RowReadsAsItsLastEnd(s: Sys, run: seq<Step>, id: RunId)
    requires Inv(s) && RunEnabled(s, run)
    ensures var e := RunTo(s, run).db;
      match LastEnd(s, run, id)
      case Some((f, at)) => id in e.runs && EndsAs(e.runs[id], f) && e.runs[id].finishedAt == Some(at)
      case None => NoEndBetween(s.db, e, id)
    decreases |run|
  {
    hide Inv, Enabled, Next, NoEndBetween, FinishesRun, EndsAs;
    if run == [] {
      SameRunsNoEnd(s.db, s.db, id);
    } else {
      var s1 := Next(s, run[0]);
      NextKeepsInv(s, run[0]);
      RowReadsAsItsLastEnd(s1, run[1..], id);
      if LastEnd(s1, run[1..], id).None? {
        NoFinish(s, run[0], id);
        if FinishesRun(s, run[0], id) {
          FinishRecords(s, run[0], id);
          EndKept(s1.db, RunTo(s1, run[1..]).db, id, run[0].facts, run[0].now);
        } else {
          NextNoEnd(s, run[0], id);
          NoEndJoins(s.db, s1.db, RunTo(s1, run[1..]).db, id);
        }
      }
    }
  }

  predicate HasSucceeded(db: Db, id: RunId) {
    id in db.runs && db.runs[id].status == Succeeded
  }

  /** So a row reads succeeded exactly when its last recorded end knew a complete backup and everything after it
      done, or when it read so from the start and no end was recorded. */
  lemma SucceededIff(s: Sys, run: seq<Step>, id: RunId)
    requires Inv(s) && RunEnabled(s, run)
    ensures HasSucceeded(RunTo(s, run).db, id) <==>
      match LastEnd(s, run, id)
      case Some((f, _)) => Complete(f)
      case None => HasSucceeded(s.db, id)
  {
    RowReadsAsItsLastEnd(s, run, id);
    hide Inv, RunTo, RunEnabled, LastEnd;
  }

  // ---- Rows nobody drives ----------------------------------------------------------------------

  /** No thread drives the row and no task will claim it. */
  ghost predicate Abandoned(s: Sys, id: RunId) {
    id in s.db.runs && id !in s.queue && forall t :: t in s.threads ==> s.threads[t].runId != id
  }

  /** Nobody but a sweep touches such a row. */
  function RowAfter(s: Sys, e: Step, id: RunId): Run
    requires id in s.db.runs
  {
    if e.SweepStep? then Swept(s.db, id, e.now, e.stamp) else s.db.runs[id]
  }

  ghost predicate LeftBehind(s: Sys, s': Sys, id: RunId) {
    Abandoned(s, id) && Abandoned(s', id) && s'.db.runs[id] == s.db.runs[id]
  }

  lemma InsertSkips(db: Db, udid: Udid, trigger: string, now: int, worker: Option<WorkerId>, id: RunId)
    requires id in db.runs && id < db.nextId
    ensures var (db', i) := InsertRun(db, udid, trigger, now, worker);
      i != Some(id) && id in db'.runs && db'.runs[id] == db.runs[id]
  {
  }

  lemma WebLeavesBehind(s: Sys, e: Step, id: RunId)
    requires Enabled(s, e) && e.WebInsert? && Abandoned(s, id) && id < s.db.nextId
    ensures LeftBehind(s, Next(s, e), id)
  {
    InsertSkips(s.db, e.udid, e.trigger, e.now, None, id);
    hide InsertRun;
  }

  lemma StartLeavesBehind(s: Sys, pid: Pid, udid: Udid, trigger: string, runId: Option<RunId>, tid: Tid, now: int,
        id: RunId)
    requires pid in s.procs && tid !in s.threads && Abandoned(s, id) && id < s.db.nextId
    requires runId.Some? ==> runId.value in s.queue
    ensures LeftBehind(s, StartIn(s, pid, udid, trigger, runId, tid, now), id)
  {
    InsertSkips(s.db, udid, trigger, now, Some(s.procs[pid].worker), id);
    hide InsertRun;
  }

  lemma DeliverLeavesBehind(s: Sys, e: Step, id: RunId)
    requires Enabled(s, e) && e.Deliver? && Abandoned(s, id) && id < s.db.nextId
    ensures LeftBehind(s, Next(s, e), id)
  {
    StartLeavesBehind(s, e.pid, s.queue[e.runId], "manual", Some(e.runId), e.tid, e.now, id);
    hide StartIn;
  }

  lemma ReportLeavesBehind(s: Sys, e: Step, id: RunId)
    requires Inv(s) && Enabled(s, e) && e.Report? && Abandoned(s, id)
    ensures LeftBehind(s, Next(s, e), id)
  {
    assert Registered(s, s.threads[e.tid]) && s.threads[e.tid].runId != id;
    hide Inv;
  }

  lemma FinishLeavesBehind(s: Sys, e: Step, id: RunId)
    requires Enabled(s, e) && e.FinishWrite? && Abandoned(s, id)
    ensures LeftBehind(s, Next(s, e), id)
  {
    assert s.threads[e.tid].runId != id;
  }

  lemma ProcessLeavesBehind(s: Sys, e: Step, id: RunId)
    requires Enabled(s, e) && Abandoned(s, id)
    requires e.Boot? || e.Crash? || e.Beat? || e.EngineBegin? || e.EngineReturns? || e.FinishPop?
    ensures LeftBehind(s, Next(s, e), id)
  {
  }

  lemma SweepLeavesAbandoned(s: Sys, e: Step, id: RunId)
    requires Enabled(s, e) && e.SweepStep? && Abandoned(s, id)
    ensures Abandoned(Next(s, e), id) && Next(s, e).db.runs[id] == RowAfter(s, e, id)
  {
    assert Next(s, e).db.runs[id] == Swept(s.db, id, e.now, e.stamp);
  }

  lemma AbandonedNext(s: Sys, e: Step, id: RunId)
    requires Inv(s) && Enabled(s, e) && Abandoned(s, id)
    ensures Abandoned(Next(s, e), id) && Next(s, e).db.runs[id] == RowAfter(s, e, id)
  {
    assert id < s.db.nextId;
    match e
    case WebInsert(_, _, _, _) => WebLeavesBehind(s, e, id);
    case Deliver(_, _, _, _) => DeliverLeavesBehind(s, e, id);
    case StartOwn(pid, udid, trigger, tid, now) => StartLeavesBehind(s, pid, udid, trigger, None, tid, now, id);
    case Report(_, _, _, _, _, _) => ReportLeavesBehind(s, e, id);
    case FinishWrite(_, _, _) => FinishLeavesBehind(s, e, id);
    case SweepStep(_, _) => SweepLeavesAbandoned(s, e, id);
    case _ => ProcessLeavesBehind(s, e, id);
    hide Inv, Abandoned, StartIn, InsertRun, Sweep, Swept, FinishRow, ReportIn, Enabled;
  }

  predicate SweepFinds(s: Sys, e: Step, worker: Option<WorkerId>) {
    e.SweepStep? && WorkerGone(s.db.workers, worker, e.now)
  }

  /** Some sweep of the run meets a row of `worker`: unclaimed, unregistered or silent for more than the threshold. */
  ghost predicate SomeSweepFinds(s: Sys, run: seq<Step>, worker: Option<WorkerId>)
    requires RunEnabled(s, run)
    decreases |run|
  {
    run != [] && (SweepFinds(s, run[0], worker) || SomeSweepFinds(Next(s, run[0]), run[1..], worker))
  }

  /** A row nobody drives and that has ended is never touched again. */
  lemma {:induction false} EndedAbandonedStays(s: Sys, run: seq<Step>, id: RunId)
    requires Inv(s) && RunEnabled(s, run) && Abandoned(s, id) && s.db.runs[id].status != Running
    ensures Abandoned(RunTo(s, run), id) && RunTo(s, run).db.runs[id] == s.db.runs[id]
    decreases |run|
  {
    hide Inv, Enabled, Next, Abandoned;
    AbandonedIsListed(s, id);
    if run == [] {
    } else {
      NextKeepsInv(s, run[0]);
      AbandonedNext(s, run[0], id);
      EndedAbandonedStays(Next(s, run[0]), run[1..], id);
    }
  }

  lemma AbandonedIsListed(s: Sys, id: RunId)
    ensures Abandoned(s, id) ==> id in s.db.runs
  {
  }

  /** Over any run at all, a running row nobody drives stays exactly as it is until a sweep finds its worker gone, and
      then ends as failed for good. */
  lemma {:induction false} AbandonedStaysIff(s: Sys, run: seq<Step>, id: RunId)
    requires Inv(s) && RunEnabled(s, run) && Abandoned(s, id) && s.db.runs[id].status == Running
    ensures Abandoned(RunTo(s, run), id)
    ensures var row := RunTo(s, run).db.runs[id];
      if SomeSweepFinds(s, run, s.db.runs[id].workerId) then row.status == Failed && row.message == SWEPT_MESSAGE
      else row == s.db.runs[id]
    decreases |run|
  {
    hide Inv, Enabled, Next, Abandoned, WorkerGone;
    AbandonedIsListed(s, id);
    if run == [] {
    } else {
      NextKeepsInv(s, run[0]);
      AbandonedNext(s, run[0], id);
      AbandonedIsListed(Next(s, run[0]), id);
      if SweepFinds(s, run[0], s.db.runs[id].workerId) {
        EndedAbandonedStays(Next(s, run[0]), run[1..], id);
      } else {
        AbandonedStaysIff(Next(s, run[0]), run[1..], id);
      }
    }
  }

  // ---- Orphans: rows left running by a process that died --------------------------------------

  /** A running row of `worker` that nobody drives. */
  ghost predicate OrphanRow(s: Sys, id: RunId, worker: WorkerId) {
    Abandoned(s, id) && s.db.runs[id].status == Running && s.db.runs[id].workerId == Some(worker)
  }

  /** A crash turns every row its threads still held into an orphan. */
  lemma CrashLeavesOrphans(s: Sys, pid: Pid, t: Tid)
    requires pid in s.procs && t in s.threads && s.threads[t].pid == pid && Active(s.threads[t])
    requires Good(s, s.threads[t].udid)
    ensures OrphanRow(Next(s, Crash(pid)), s.threads[t].runId, s.procs[pid].worker)
  {
    assert Held(s, s.threads[t]);
  }

  lemma OrphanNext(s: Sys, e: Step, id: RunId, worker: WorkerId)
    requires Inv(s) && Enabled(s, e) && OrphanRow(s, id, worker) && !SweepFinds(s, e, Some(worker))
    ensures OrphanRow(Next(s, e), id, worker)
  {
    AbandonedNext(s, e, id);
    hide Inv, Abandoned, Next, Enabled;
    AbandonedIsListed(s, id);
  }

  /** Over any run at all, an orphan keeps its device blocked exactly as long as no sweep finds its worker
      unregistered or silent for more than the threshold. */
  lemma OrphanStaysIff(s: Sys, run: seq<Step>, id: RunId, worker: WorkerId)
    requires Inv(s) && RunEnabled(s, run) && OrphanRow(s, id, worker)
    ensures id in RunTo(s, run).db.runs
    ensures RunTo(s, run).db.runs[id].status == Running <==> !SomeSweepFinds(s, run, Some(worker))
  {
    AbandonedStaysIff(s, run, id);
    AbandonedIsListed(RunTo(s, run), id);
    hide Inv, RunTo, SomeSweepFinds, RunEnabled, Abandoned;
    AbandonedIsListed(s, id);
  }

  /** Nobody boots or beats under the worker's id. */
  predicate Silent(s: Sys, e: Step, worker: WorkerId) {
    !(e.Boot? && e.worker == worker) && !(e.Beat? && e.pid in s.procs && s.procs[e.pid].worker == worker)
  }

  ghost predicate SilentRun(s: Sys, run: seq<Step>, worker: WorkerId)
    requires RunEnabled(s, run)
    decreases |run|
  {
    run == [] || (Silent(s, run[0], worker) && SilentRun(Next(s, run[0]), run[1..], worker))
  }

  predicate SweptLate(run: seq<Step>, after: int) {
    exists e :: e in run && e.SweepStep? && after + ORPHAN_THRESHOLD < e.now
  }

  lemma SilentKeepsHeartbeat(s: Sys, e: Step, worker: WorkerId)
    requires Enabled(s, e) && Silent(s, e, worker) && worker in s.db.workers
    ensures worker in Next(s, e).db.workers && Next(s, e).db.workers[worker] == s.db.workers[worker]
  {
  }

  /** When the dead worker's id stays unused, the first sweep more than the threshold after its last heartbeat frees
      the device. */
  lemma {:induction false} UnusedIdIsFreed(s: Sys, run: seq<Step>, id: RunId, worker: WorkerId)
    requires Inv(s) && RunEnabled(s, run) && OrphanRow(s, id, worker) && worker in s.db.workers
    requires SilentRun(s, run, worker) && SweptLate(run, s.db.workers[worker])
    ensures id in RunTo(s, run).db.runs && RunTo(s, run).db.runs[id].status != Running
  {
    LateSweepFinds(s, run, worker);
    OrphanStaysIff(s, run, id, worker);
  }

  lemma {:induction false} LateSweepFinds(s: Sys, run: seq<Step>, worker: WorkerId)
    requires RunEnabled(s, run) && worker in s.db.workers
    requires SilentRun(s, run, worker) && SweptLate(run, s.db.workers[worker])
    ensures SomeSweepFinds(s, run, Some(worker))
    decreases |run|
  {
    if !SweepFinds(s, run[0], Some(worker)) {
      SilentKeepsHeartbeat(s, run[0], worker);
      assert SweptLate(run[1..], s.db.workers[worker]) by {
        var e :| e in run && e.SweepStep? && s.db.workers[worker] + ORPHAN_THRESHOLD < e.now;
        assert e in run[1..];
      }
      LateSweepFinds(Next(s, run[0]), run[1..], worker);
    }
  }

  /** Once the orphan is swept the device accepts a new run at once. */
  lemma SweptDeviceAcceptsRun(s: Sys, now: int, stamp: int, id: RunId, worker: WorkerId, trigger: string, at: int,
        owner: Option<WorkerId>)
    requires Inv(s) && OrphanRow(s, id, worker) && WorkerGone(s.db.workers, Some(worker), now)
    ensures InsertRun(Sweep(s.db, now, stamp), s.db.runs[id].udid, trigger, at, owner).1.Some?
  {
    var db' := Sweep(s.db, now, stamp);
    assert forall i :: i in s.db.runs ==> db'.runs[i] == Swept(s.db, i, now, stamp);
    forall i | i in db'.runs ensures !Occupies(db'.runs[i], s.db.runs[id].udid) {
      assert Occupies(s.db.runs[i], s.db.runs[id].udid) ==> i == id;
    }
  }

  // ---- What fails without the hypotheses ------------------------------------------------------

  /** n rounds of a heartbeat and, ten seconds later, a sweep. */
  function BeatsAndSweeps(pid: Pid, t: int, n: nat): seq<Step>
    decreases n
  {
    if n == 0 then [] else [Beat(pid, t), SweepStep(t + 10, t + 10)] + BeatsAndSweeps(pid, t + 10, n - 1)
  }

  lemma {:induction false} ReusedIdKeepsOrphan(s: Sys, pid: Pid, t: int, n: nat, id: RunId, worker: WorkerId)
    requires Inv(s) && OrphanRow(s, id, worker) && pid in s.procs && s.procs[pid].worker == worker
    ensures RunEnabled(s, BeatsAndSweeps(pid, t, n)) && OrphanRow(RunTo(s, BeatsAndSweeps(pid, t, n)), id, worker)
    decreases n
  {
    if n == 0 {
    } else {
      var rest := BeatsAndSweeps(pid, t + 10, n - 1);
      var run := BeatsAndSweeps(pid, t, n);
      var s1 := Next(s, Beat(pid, t));
      var s2 := Next(s1, SweepStep(t + 10, t + 10));
      assert run[1..] == [SweepStep(t + 10, t + 10)] + rest && run[1..][1..] == rest;
      NextKeepsInv(s, Beat(pid, t));
      OrphanNext(s, Beat(pid, t), id, worker);
      NextKeepsInv(s1, SweepStep(t + 10, t + 10));
      OrphanNext(s1, SweepStep(t + 10, t + 10), id, worker);
      ReusedIdKeepsOrphan(s2, pid, t + 10, n - 1, id, worker);
    }
  }

  /**
   A worker that restarts under the id it had, within the threshold of its last heartbeat, leaves the run of its former
   self running for ever: its startup sweep spares the row and every later heartbeat keeps it spared, for any number
   of rounds.
   */
  lemma FastRestartBlocksDevice(s: Sys, pid: Pid, now: int, n: nat, id: RunId, worker: WorkerId, trigger: string,
        at: int)
    requires Inv(s) && OrphanRow(s, id, worker) && pid !in s.procs
    requires worker in s.db.workers && now - ORPHAN_THRESHOLD <= s.db.workers[worker]
    ensures var run := [SweepStep(now, now), Boot(pid, worker, now)] + BeatsAndSweeps(pid, now + 10, n);
      && RunEnabled(s, run) && OrphanRow(RunTo(s, run), id, worker)
      && InsertRun(RunTo(s, run).db, RunTo(s, run).db.runs[id].udid, trigger, at, None).1 == None
  {
    var rest := BeatsAndSweeps(pid, now + 10, n);
    var run := [SweepStep(now, now), Boot(pid, worker, now)] + rest;
    var s1 := Next(s, SweepStep(now, now));
    var s2 := Next(s1, Boot(pid, worker, now));
    assert run[1..] == [Boot(pid, worker, now)] + rest && run[1..][1..] == rest;
    NextKeepsInv(s, SweepStep(now, now));
    OrphanNext(s, SweepStep(now, now), id, worker);
    NextKeepsInv(s1, Boot(pid, worker, now));
    OrphanNext(s1, Boot(pid, worker, now), id, worker);
    ReusedIdKeepsOrphan(s2, pid, now + 10, n, id, worker);
    assert RunTo(s1, run[1..]) == RunTo(s2, rest);
    assert RunTo(s, run) == RunTo(s2, rest);
    var e := RunTo(s, run);
    assert Occupies(e.db.runs[id], e.db.runs[id].udid);
  }

  /** A sweep between a web insert and its claim lets two processes run an engine for one device. */
  lemma SweepBeforeClaimAllowsTwoEngines(s: Sys, p: Pid, q: Pid, t: Tid, u: Tid, udid: Udid, now: int)
    requires Inv(s) && p in s.procs && q in s.procs && p != q && t !in s.threads && u !in s.threads && t != u
    requires udid !in s.procs[p].states && udid !in s.procs[q].states && !HasRunning(s.db, udid)
    ensures var a := s.db.nextId;
      var run := [WebInsert(udid, "manual", now, true), SweepStep(now, now), WebInsert(udid, "manual", now, true),
                  Deliver(p, a, t, now), Deliver(q, a + 1, u, now), EngineBegin(t), EngineBegin(u)];
      && RunEnabled(s, run)
      && var e := RunTo(s, run);
         t in e.threads && u in e.threads && e.threads[t] == Thread(p, udid, a, InEngine)
           && e.threads[u] == Thread(q, udid, a + 1, InEngine)
  {
    var a := s.db.nextId;
    var run := [WebInsert(udid, "manual", now, true), SweepStep(now, now), WebInsert(udid, "manual", now, true),
                Deliver(p, a, t, now), Deliver(q, a + 1, u, now), EngineBegin(t), EngineBegin(u)];
    InsertSweepInsert(s, udid, now);
    TwoClaims(Next(Next(Next(s, run[0]), run[1]), run[2]), p, q, t, u, udid, a, a + 1, now);
    assert run[1..][1..][1..] == [run[3], run[4], run[5], run[6]];
    hide Inv, Next, HasRunning;
    RunThree(s, run);
  }

  /** The swept insert makes room for a second one while the first one's task still waits. */
  lemma InsertSweepInsert(s: Sys, udid: Udid, now: int)
    requires Inv(s) && !HasRunning(s.db, udid)
    ensures var insert := WebInsert(udid, "manual", now, true);
      var s3 := Next(Next(Next(s, insert), SweepStep(now, now)), insert);
      && s3.queue == s.queue[s.db.nextId := udid][s.db.nextId + 1 := udid] && s3.procs == s.procs
        && s3.threads == s.threads
  {
    var insert := WebInsert(udid, "manual", now, true);
    var s1 := Next(s, insert);
    var s2 := Next(s1, SweepStep(now, now));
    assert IdsBelow(s.db);
    hide Inv;
    assert !HasRunning(s2.db, udid) by {
      forall i | i in s2.db.runs ensures !Occupies(s2.db.runs[i], udid) {
        assert s2.db.runs[i] == Swept(s1.db, i, now, now);
        assert i != s.db.nextId ==> s1.db.runs[i] == s.db.runs[i] && !Occupies(s.db.runs[i], udid);
      }
    }
  }

  /** A worker that is alive but silent for longer than the threshold loses its row to a sweep, and a second engine
      can start. */
  lemma StaleHeartbeatAllowsTwoEngines(s: Sys, t: Tid, q: Pid, u: Tid, now: int)
    requires t in s.threads && Good(s, s.threads[t].udid) && s.threads[t].pc == InEngine && u !in s.threads
    requires q in s.procs && s.threads[t].udid !in s.procs[q].states
    requires WorkerGone(s.db.workers, Some(s.procs[s.threads[t].pid].worker), now)
    ensures var udid := s.threads[t].udid;
      var run := [SweepStep(now, now), StartOwn(q, udid, "schedule", u, now), EngineBegin(u)];
      && RunEnabled(s, run)
      && var e := RunTo(s, run);
         t in e.threads && u in e.threads && e.threads[t] == s.threads[t]
         && e.threads[u].udid == udid && e.threads[u].pc == InEngine && e.threads[u].pid == q
  {
    var udid := s.threads[t].udid;
    var run := [SweepStep(now, now), StartOwn(q, udid, "schedule", u, now), EngineBegin(u)];
    SweepFreesHeldDevice(s, t, now);
    OwnStartRuns(Next(s, run[0]), q, udid, u, now);
    assert run[1..] == [StartOwn(q, udid, "schedule", u, now), EngineBegin(u)];
    hide Good, Sweep, HasRunning, WorkerGone, OneRunning;
  }

  lemma OwnStartRuns(s: Sys, q: Pid, udid: Udid, u: Tid, now: int)
    requires q in s.procs && udid !in s.procs[q].states && u !in s.threads && !HasRunning(s.db, udid)
    ensures var run := [StartOwn(q, udid, "schedule", u, now), EngineBegin(u)];
      RunEnabled(s, run) && RunTo(s, run).threads == s.threads[u := Thread(q, udid, s.db.nextId, InEngine)]
  {
    var run := [StartOwn(q, udid, "schedule", u, now), EngineBegin(u)];
    var s1 := Next(s, run[0]);
    assert s1.threads == s.threads[u := Thread(q, udid, s.db.nextId, Spawned)];
    hide HasRunning, StartIn;
    var s2 := Next(s1, run[1]);
    assert run[1..] == [EngineBegin(u)] && run[1..][1..] == [];
    assert RunEnabled(s2, []) && RunTo(s2, []) == s2;
    assert RunEnabled(s1, run[1..]) && RunTo(s1, run[1..]) == s2;
  }

  lemma SweepFreesHeldDevice(s: Sys, t: Tid, now: int)
    requires t in s.threads && Active(s.threads[t]) && Good(s, s.threads[t].udid)
    requires WorkerGone(s.db.workers, Some(s.procs[s.threads[t].pid].worker), now)
    ensures !HasRunning(Sweep(s.db, now, now), s.threads[t].udid)
  {
    var udid, id := s.threads[t].udid, s.threads[t].runId;
    assert Held(s, s.threads[t]) && Registered(s, s.threads[t]) && OneRunning(s.db);
    hide Good, HasRunning;
    var db' := Sweep(s.db, now, now);
    assert !HasRunning(db', udid) by {
      forall i | i in db'.runs ensures !Occupies(db'.runs[i], udid) {
        assert db'.runs[i] == Swept(s.db, i, now, now);
        assert Occupies(s.db.runs[i], udid) ==> i == id;
      }
      NoneOccupies(db', udid);
    }
  }

  lemma NoneOccupies(db: Db, udid: Udid)
    requires forall i :: i in db.runs ==> !Occupies(db.runs[i], udid)
    ensures !HasRunning(db, udid)
  {
  }

  lemma RunThree(s: Sys, run: seq<Step>)
    requires |run| >= 3 && Enabled(s, run[0]) && Enabled(Next(s, run[0]), run[1])
    requires Enabled(Next(Next(s, run[0]), run[1]), run[2])
    requires RunEnabled(Next(Next(Next(s, run[0]), run[1]), run[2]), run[1..][1..][1..])
    ensures RunEnabled(s, run)
    ensures RunTo(s, run) == RunTo(Next(Next(Next(s, run[0]), run[1]), run[2]), run[1..][1..][1..])
  {
    var s1 := Next(s, run[0]);
    var s2 := Next(s1, run[1]);
    assert RunEnabled(s2, run[1..][1..]) && RunTo(s2, run[1..][1..]) == RunTo(Next(s2, run[2]), run[1..][1..][1..]);
    assert RunEnabled(s1, run[1..]) && RunTo(s1, run[1..]) == RunTo(s2, run[1..][1..]);
    hide Next, Enabled;
  }

  lemma TwoClaims(s: Sys, p: Pid, q: Pid, t: Tid, u: Tid, udid: Udid, a: RunId, b: RunId, now: int)
    requires p in s.procs && q in s.procs && p != q && t !in s.threads && u !in s.threads && t != u && a != b
    requires a in s.queue && b in s.queue && s.queue[a] == udid && s.queue[b] == udid
    requires udid !in s.procs[p].states && udid !in s.procs[q].states
    ensures var run := [Deliver(p, a, t, now), Deliver(q, b, u, now), EngineBegin(t), EngineBegin(u)];
      && RunEnabled(s, run)
      && var e := RunTo(s, run);
         t in e.threads && u in e.threads && e.threads[t] == Thread(p, udid, a, InEngine)
           && e.threads[u] == Thread(q, udid, b, InEngine)
  {
    var run := [Deliver(p, a, t, now), Deliver(q, b, u, now), EngineBegin(t), EngineBegin(u)];
    var s1 := Next(s, run[0]);
    var s2 := Next(s1, run[1]);
    var s3 := Next(s2, run[2]);
    var s4 := Next(s3, run[3]);
    assert s2.threads == s.threads[t := Thread(p, udid, a, Spawned)][u := Thread(q, udid, b, Spawned)];
    assert run[1..][1..][1..] == [EngineBegin(u)];
    assert RunEnabled(s3, [EngineBegin(u)]) && RunTo(s3, [EngineBegin(u)]) == s4;
    hide StartIn;
    RunThree(s, run);
  }

  // ---- All of this happens from the empty installation ---------------------------------------------

  lemma {:induction false} RunConcat(s: Sys, a: seq<Step>, b: seq<Step>)
    requires RunEnabled(s, a) && RunEnabled(RunTo(s, a), b)
    ensures RunEnabled(s, a + b) && RunTo(s, a + b) == RunTo(RunTo(s, a), b)
    decreases |a|
  {
    if a == [] {
      assert a + b == b;
    } else {
      assert (a + b)[1..] == a[1..] + b;
      RunConcat(Next(s, a[0]), a[1..], b);
    }
    hide Next, Enabled;
  }

  /** A worker boots, starts a scheduled backup and dies. */
  function StartAndDie(worker: WorkerId, udid: Udid): seq<Step> {
    [Boot(0, worker, 100), StartOwn(0, udid, "schedule", 0, 100), Crash(0)]
  }

  lemma DeathLeavesOrphan(worker: WorkerId, udid: Udid)
    ensures RunEnabled(EMPTY, StartAndDie(worker, udid))
    ensures var s := RunTo(EMPTY, StartAndDie(worker, udid));
      && Inv(s) && OrphanRow(s, 1, worker) && s.procs == map[]
      && worker in s.db.workers && s.db.workers[worker] == 100
  {
    var run := StartAndDie(worker, udid);
    var s1 := Next(EMPTY, run[0]);
    var s2 := Next(s1, run[1]);
    NothingYetIsGood(udid);
    NextKeepsGood(EMPTY, run[0], udid);
    NextKeepsGood(s1, run[1], udid);
    FirstStart(worker, udid);
    CrashLeavesOrphans(s2, 0, 0);
    NextKeepsInv(s2, run[2]);
    RunOfThree(EMPTY, run);
    hide Good, Inv, RunEnabled, RunTo, OrphanRow, StartIn;
  }

  lemma FirstStart(worker: WorkerId, udid: Udid)
    ensures var s := Next(Next(EMPTY, Boot(0, worker, 100)), StartOwn(0, udid, "schedule", 0, 100));
      && s.procs.Keys == {0} && s.procs[0].worker == worker && s.threads == map[0 := Thread(0, udid, 1, Spawned)]
      && s.db.workers == map[worker := 100]
  {
    assert !HasRunning(EMPTY.db, udid);
  }

  /** A restart half a minute later blocks the device for any number of rounds. */
  lemma FastRestartHappens(worker: WorkerId, udid: Udid, n: nat)
    ensures var run := StartAndDie(worker, udid)
                       + ([SweepStep(130, 130), Boot(0, worker, 130)] + BeatsAndSweeps(0, 140, n));
      RunEnabled(EMPTY, run) && OrphanRow(RunTo(EMPTY, run), 1, worker)
  {
    hide RunEnabled, RunTo, OrphanRow, Inv, StartAndDie;
    DeathLeavesOrphan(worker, udid);
    var s := RunTo(EMPTY, StartAndDie(worker, udid));
    var rest := [SweepStep(130, 130), Boot(0, worker, 130)] + BeatsAndSweeps(0, 140, n);
    FastRestartBlocksDevice(s, 0, 130, n, 1, worker, "manual", 0);
    RunConcat(EMPTY, StartAndDie(worker, udid), rest);
  }

  function TwoWorkers(v: WorkerId, w: WorkerId): seq<Step> {
    [Boot(0, v, 100), Boot(1, w, 100)]
  }

  lemma TwoWorkersRun(v: WorkerId, w: WorkerId, device: Udid)
    ensures RunEnabled(EMPTY, TwoWorkers(v, w))
    ensures var s := RunTo(EMPTY, TwoWorkers(v, w));
      && s.db == Db(map[], 1, map[v := 100][w := 100]) && s.threads == map[] && s.queue == map[]
      && s.procs == map[0 := Proc(v, map[]), 1 := Proc(w, map[])] && Good(s, device)
  {
    var s1 := Next(EMPTY, Boot(0, v, 100));
    var s2 := Next(s1, Boot(1, w, 100));
    assert TwoWorkers(v, w)[1..] == [Boot(1, w, 100)] && TwoWorkers(v, w)[1..][1..] == [];
    assert RunEnabled(s2, []) && RunTo(s2, []) == s2;
    assert RunEnabled(s1, [Boot(1, w, 100)]) && RunTo(s1, [Boot(1, w, 100)]) == s2;
  }

  /** Two workers, a web request, a sweep before its claim and a second web request: two engines run for the device. */
  lemma TwoEnginesAfterEarlySweep(v: WorkerId, w: WorkerId, udid: Udid)
    ensures var run := TwoWorkers(v, w)
        + [WebInsert(udid, "manual", 100, true), SweepStep(100, 100), WebInsert(udid, "manual", 100, true),
           Deliver(0, 1, 0, 100), Deliver(1, 2, 1, 100), EngineBegin(0), EngineBegin(1)];
      && RunEnabled(EMPTY, run)
      && var e := RunTo(EMPTY, run);
         && 0 in e.threads && e.threads[0] == Thread(0, udid, 1, InEngine)
         && 1 in e.threads && e.threads[1] == Thread(1, udid, 2, InEngine)
  {
    hide RunEnabled, RunTo, TwoWorkers, Good, Inv;
    TwoWorkersRun(v, w, udid);
    var s := RunTo(EMPTY, TwoWorkers(v, w));
    assert Inv(s) by { GoodIsInv(s, udid); }
    NoneOccupies(s.db, udid);
    SweepBeforeClaimAllowsTwoEngines(s, 0, 1, 0, 1, udid, 100);
    RunConcat(EMPTY, TwoWorkers(v, w),
              [WebInsert(udid, "manual", 100, true), SweepStep(100, 100), WebInsert(udid, "manual", 100, true),
               Deliver(0, 1, 0, 100), Deliver(1, 2, 1, 100), EngineBegin(0), EngineBegin(1)]);
  }

  lemma GoodIsInv(s: Sys, device: Udid)
    ensures Good(s, device) ==> Inv(s)
  {
  }

  /** Two workers, and a sweep that finds the first silent during its backup: two engines run for the device. */
  lemma TwoEnginesAfterSilence(v: WorkerId, w: WorkerId, udid: Udid)
    requires v != w
    ensures var run := TwoWorkers(v, w) + [StartOwn(0, udid, "schedule", 0, 100), EngineBegin(0)]
                       + [SweepStep(200, 200), StartOwn(1, udid, "schedule", 1, 200), EngineBegin(1)];
      && RunEnabled(EMPTY, run)
      && var e := RunTo(EMPTY, run);
         && 0 in e.threads && e.threads[0] == Thread(0, udid, 1, InEngine)
         && 1 in e.threads && e.threads[1].udid == udid && e.threads[1].pc == InEngine && e.threads[1].pid == 1
  {
    hide RunEnabled, RunTo, TwoWorkers, Good, Inv;
    TwoWorkersRun(v, w, udid);
    var s := RunTo(EMPTY, TwoWorkers(v, w));
    var first := [StartOwn(0, udid, "schedule", 0, 100), EngineBegin(0)];
    NoneOccupies(s.db, udid);
    OwnStartRuns(s, 0, udid, 0, 100);
    OwnStartIsGood(s, udid);
    RunConcat(EMPTY, TwoWorkers(v, w), first);
    var s' := RunTo(s, first);
    StaleHeartbeatAllowsTwoEngines(s', 0, 1, 1, 200);
    RunConcat(EMPTY, TwoWorkers(v, w) + first,
              [SweepStep(200, 200), StartOwn(1, udid, "schedule", 1, 200), EngineBegin(1)]);
  }

  lemma {:induction false} NoSweepIsSafe(s: Sys, run: seq<Step>, device: Udid)
    requires RunEnabled(s, run) && forall i :: 0 <= i < |run| ==> !run[i].SweepStep?
    ensures SafeRun(s, run, device)
    decreases |run|
  {
    if run == [] {
    } else {
      NoSweepIsSafe(Next(s, run[0]), run[1..], device);
    }
    hide Next, Enabled;
  }

  lemma OwnStartIsGood(s: Sys, udid: Udid)
    requires Good(s, udid) && 0 in s.procs && 0 !in s.threads && udid !in s.procs[0].states && !HasRunning(s.db, udid)
    ensures var run := [StartOwn(0, udid, "schedule", 0, 100), EngineBegin(0)];
      && RunEnabled(s, run)
      && var e := RunTo(s, run);
         && Good(e, udid) && e.db.workers == s.db.workers
         && e.procs.Keys == s.procs.Keys
         && (forall p :: p in s.procs ==> e.procs[p].worker == s.procs[p].worker)
         && (forall p :: p in s.procs && p != 0 ==> e.procs[p] == s.procs[p])
  {
    var run := [StartOwn(0, udid, "schedule", 0, 100), EngineBegin(0)];
    OwnStartRuns(s, 0, udid, 0, 100);
    NoSweepIsSafe(s, run, udid);
    GoodKept(s, run, udid);
    var s1 := Next(s, run[0]);
    OwnStartKeepsOthers(s, udid);
    var s2 := Next(s1, run[1]);
    assert run[1..] == [EngineBegin(0)] && run[1..][1..] == [];
    assert RunTo(s2, []) == s2 && RunTo(s1, run[1..]) == s2;
    hide Good, HasRunning, StartIn;
  }

  lemma OwnStartKeepsOthers(s: Sys, udid: Udid)
    requires 0 in s.procs && 0 !in s.threads && !HasRunning(s.db, udid)
    ensures var e := Next(s, StartOwn(0, udid, "schedule", 0, 100));
      && e.db.workers == s.db.workers && e.procs.Keys == s.procs.Keys
      && (forall p :: p in s.procs ==> e.procs[p].worker == s.procs[p].worker)
      && (forall p :: p in s.procs && p != 0 ==> e.procs[p] == s.procs[p])
  {
    hide HasRunning;
  }

  // ---- Dropped claims --------------------------------------------------------------------------

  /** A running row that nobody has claimed, nobody drives and no task will claim. */
  ghost predicate Stranded(s: Sys, id: RunId) {
    Abandoned(s, id) && s.db.runs[id].status == Running && s.db.runs[id].workerId == None
  }

  /** A delivered task starts a thread iff the process has no state left for the device; otherwise its row is
      stranded. */
  lemma DroppedClaimStrandsRow(s: Sys, pid: Pid, runId: RunId, tid: Tid, now: int)
    requires Enabled(s, Deliver(pid, runId, tid, now)) && Good(s, s.queue[runId])
    ensures var s' := Next(s, Deliver(pid, runId, tid, now));
      && (tid in s'.threads <==> s.queue[runId] !in s.procs[pid].states)
      && (tid !in s'.threads <==> Stranded(s', runId))
  {
    var s' := Next(s, Deliver(pid, runId, tid, now));
    assert Unclaimed(s, runId);
    assert forall t :: t in s.threads ==> s.threads[t].runId != runId;
    if tid !in s'.threads {
      assert s'.db == s.db && s'.threads == s.threads;
    } else {
      assert s'.threads[tid].runId == runId;
    }
  }

  /** It happens: between the two halves of _finish a web request finds the device free, and its task finds the old
      state. */
  lemma FinishRaceDropsClaim(s: Sys, t: Tid, u: Tid, facts: Facts, now: int)
    requires t in s.threads && s.threads[t].pc == Finishing && u !in s.threads && facts.storageOk
    requires Good(s, s.threads[t].udid)
    ensures var udid, pid := s.threads[t].udid, s.threads[t].pid;
      var run := [FinishWrite(t, facts, now), WebInsert(udid, "manual", now, true), Deliver(pid, s.db.nextId, u, now)];
      && RunEnabled(s, run)
      && var e := RunTo(s, run);
         u !in e.threads && Stranded(e, s.db.nextId) && e.db.runs[s.db.nextId].udid == udid
  {
    var udid, pid := s.threads[t].udid, s.threads[t].pid;
    var run := [FinishWrite(t, facts, now), WebInsert(udid, "manual", now, true), Deliver(pid, s.db.nextId, u, now)];
    var s1 := Next(s, run[0]);
    FinishFreesDevice(s, t, facts, now);
    var s2 := Next(s1, run[1]);
    NextKeepsGood(s, run[0], udid);
    NextKeepsGood(s1, run[1], udid);
    FreeInsert(s1, udid, now);
    DroppedClaimStrandsRow(s2, pid, s.db.nextId, u, now);
    AbandonedKeepsOwner(s2, pid, s.db.nextId, u, now);
    RunOfThree(s, run);
    hide Good, Next, Stranded, RunEnabled, RunTo;
  }

  lemma FinishFreesDevice(s: Sys, t: Tid, facts: Facts, now: int)
    requires t in s.threads && s.threads[t].pc == Finishing && facts.storageOk && Good(s, s.threads[t].udid)
    ensures var s1 := Next(s, FinishWrite(t, facts, now));
      && !HasRunning(s1.db, s.threads[t].udid) && s1.db.nextId == s.db.nextId && s1.procs == s.procs
      && s1.threads.Keys == s.threads.Keys
      && s.threads[t].pid in s.procs && s.threads[t].udid in s.procs[s.threads[t].pid].states
  {
    var th, s1 := s.threads[t], Next(s, FinishWrite(t, facts, now));
    assert Held(s, th) && Registered(s, th) && Occupies(s.db.runs[th.runId], th.udid);
    forall i | i in s1.db.runs ensures !Occupies(s1.db.runs[i], th.udid) {
      assert i != th.runId ==> s1.db.runs[i] == s.db.runs[i];
      assert Occupies(s.db.runs[i], th.udid) ==> i == th.runId;
    }
    NoneOccupies(s1.db, th.udid);
  }

  lemma FreeInsert(s: Sys, udid: Udid, now: int)
    requires !HasRunning(s.db, udid)
    ensures var s' := Next(s, WebInsert(udid, "manual", now, true));
      s'.queue == s.queue[s.db.nextId := udid] && s'.procs == s.procs && s'.threads == s.threads
  {
  }

  lemma AbandonedKeepsOwner(s: Sys, pid: Pid, runId: RunId, tid: Tid, now: int)
    requires Inv(s) && Enabled(s, Deliver(pid, runId, tid, now))
    ensures var s' := Next(s, Deliver(pid, runId, tid, now));
      runId in s'.db.runs && s'.db.runs[runId].udid == s.queue[runId]
  {
  }

  lemma RunOfThree(s: Sys, run: seq<Step>)
    requires |run| == 3 && Enabled(s, run[0]) && Enabled(Next(s, run[0]), run[1])
    requires Enabled(Next(Next(s, run[0]), run[1]), run[2])
    ensures RunEnabled(s, run) && RunTo(s, run) == Next(Next(Next(s, run[0]), run[1]), run[2])
  {
    var s3 := Next(Next(Next(s, run[0]), run[1]), run[2]);
    assert run[1..][1..][1..] == [] && RunEnabled(s3, []) && RunTo(s3, []) == s3;
    assert run[1..][1..][0] == run[2] && run[1..][0] == run[1];
    hide Next, Enabled;
    RunThree(s, run);
  }

  predicate HasSweep(run: seq<Step>) {
    exists e :: e in run && e.SweepStep?
  }

  lemma {:induction false} AnySweepFindsUnclaimed(s: Sys, run: seq<Step>)
    requires RunEnabled(s, run)
    ensures SomeSweepFinds(s, run, None) <==> HasSweep(run)
    decreases |run|
  {
    hide Next, Enabled;
    if run == [] {
    } else {
      AnySweepFindsUnclaimed(Next(s, run[0]), run[1..]);
      assert forall e :: e in run <==> e == run[0] || e in run[1..];
    }
  }

  /** Over any run at all a stranded row keeps its device blocked until the next sweep, whenever that comes, and is
      then recorded as the end of a worker that never restarted. */
  lemma StrandedStaysIff(s: Sys, run: seq<Step>, id: RunId)
    requires Inv(s) && RunEnabled(s, run) && Stranded(s, id)
    ensures id in RunTo(s, run).db.runs
    ensures var row := RunTo(s, run).db.runs[id];
      if HasSweep(run) then row.status == Failed && row.message == SWEPT_MESSAGE else row.status == Running
  {
    AbandonedStaysIff(s, run, id);
    AnySweepFindsUnclaimed(s, run);
    AbandonedIsListed(RunTo(s, run), id);
    hide Inv, RunTo, SomeSweepFinds, RunEnabled, Abandoned, HasSweep;
    AbandonedIsListed(s, id);
  }
}
