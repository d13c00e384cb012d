/** The mutable objects behind the run protocol: the run row a session loads and commits, the sidecar's job and its
    job table.  Each method is one atomic block of the program, a database session or a sidecar statement that other
    threads can observe, and is proved to be the protocol's step of that name; so every state of the objects is a
    reachable state of the protocol. */
module RunRecords {
  import opened Prelude
  import opened RunProtocol

  const RUN_START_TIMEOUT_SECONDS := 15

  function RecoveryNote(message: string): string {
    "\n\n[slimventory] Automatically marked failed during recovery: " + message + "\n"
  }

  class PlaybookRun {
    var status: Status
    var output: string
    var exitCode: Option<int>
    var sidecarJobId: string
    var finishedAt: Option<int>
    const createdAt: int

    ghost function Row(): Run
      reads this
    {
      Run(status, exitCode, sidecarJobId != "", finishedAt.Some?)
    }

    constructor (now: int)
      ensures Row() == START.run && output == "" && sidecarJobId == "" && createdAt == now
    {
      status, output, exitCode, sidecarJobId, finishedAt, createdAt := Pending, "", None, "", None, now;
    }

    /** Keeps an earlier finishing time and adds a note to the output. */
    method MarkFailed(message: string, now: int)
      modifies this
      ensures Row() == MarkedFailed(old(Row())) && sidecarJobId == old(sidecarJobId)
      ensures finishedAt == if old(finishedAt).Some? then old(finishedAt) else Some(now)
      ensures output == old(output) + RecoveryNote(message)
    {
      status := Failed;
      if finishedAt.None? {
        finishedAt := Some(now);
      }
      output := output + RecoveryNote(message);
    }
  }

  /** returned is the exit status of the process, set when it ends; files says whether its output and temporary
      files exist. */
  class SidecarJob {
    var returned: Option<int>
    var done: bool
    var exitCode: Option<int>
    var files: bool

    constructor ()
      ensures returned.None? && !done && exitCode.None? && files
    {
      returned, done, exitCode, files := None, false, None, true;
    }
  }

  class JobTable {
    var jobs: map<string, SidecarJob>

    constructor ()
      ensures jobs == map[]
    {
      jobs := map[];
    }
  }

  /** One run, its sidecar and everyone who acts on them.  The ghost fields are the program counters of the tasks and
      threads. */
  class RunSystem {
    const run: PlaybookRun
    const table: JobTable
    const jobId: string
    var job: SidecarJob?
    ghost var consumers: map<Consumer, Pc>
    ghost var recoveries: map<nat, RecoverPc>
    ghost var cancels: map<nat, Canceller>
    ghost var wait: WaitPc
    ghost var swept: bool

    predicate Listed()
      reads this, table
    {
      job != null && jobId in table.jobs && table.jobs[jobId] == job
    }

    ghost function State(): State
      reads this, run, table, job
    {
      RunProtocol.State(
        run.Row(),
        if job == null then None
        else Some(Job(Listed(), job.returned, job.done, job.exitCode, job.files, swept, wait)),
        consumers, recoveries, cancels)
    }

    /** The objects hang together, and some sequence of protocol steps leads here. */
    ghost predicate Valid()
      reads this, run, table, job
    {
      && jobId != "" && (run.sidecarJobId == "" || run.sidecarJobId == jobId)
      && (jobId in table.jobs ==> Listed())
      && Reachable(State())
    }

    constructor (now: int, id: string)
      requires id != ""
      ensures Valid() && State() == START && fresh(run) && fresh(table)
    {
      run := new PlaybookRun(now);
      table := new JobTable();
      jobId, job := id, null;
      consumers, recoveries, cancels, wait, swept := map[Executor := Preparing], map[], map[], Blocked, false;
      new;
      assert After(START, []) == Some(START);
    }

    // ----- The executor -----

    method Begin()
      requires Valid() && PcOf(State(), Executor).Preparing?
      modifies this`consumers, run`status
      ensures Valid() && Next(old(State()), ExecBegin) == Some(State())
    {
      ghost var s := State();
      run.status := Running;
      consumers := consumers[Executor := Triggering];
      Advance(s, ExecBegin, State());
    }

    /** POST /run on the sidecar; the answer may not reach the executor. */
    method StartRun(ghost lost: bool)
      requires Valid() && PcOf(State(), Executor).Triggering?
      modifies this`job, this`consumers, this`wait, this`swept, table
      ensures Valid() && Next(old(State()), if lost then ExecTriggerLost else ExecTrigger) == Some(State())
      ensures fresh(job) && table.jobs == old(table.jobs)[jobId := job]
    {
      ghost var s := State();
      var started := new SidecarJob();
      table.jobs := table.jobs[jobId := started];
      job := started;
      consumers, wait, swept := consumers[Executor := if lost then Failing else HasId], Blocked, false;
      Advance(s, if lost then ExecTriggerLost else ExecTrigger, State());
    }

    method RefuseStart()
      requires Valid() && PcOf(State(), Executor).Triggering?
      modifies this`consumers
      ensures Valid() && Next(old(State()), ExecTriggerRefused) == Some(State())
    {
      ghost var s := State();
      consumers := consumers[Executor := Failing];
      Advance(s, ExecTriggerRefused, State());
    }

    method StoreJobId()
      requires Valid() && PcOf(State(), Executor).HasId?
      modifies this`consumers, run`sidecarJobId
      ensures Valid() && Next(old(State()), ExecStoreId) == Some(State()) && run.sidecarJobId == jobId
    {
      ghost var s := State();
      run.sidecarJobId := jobId;
      consumers := consumers[Executor := Idle];
      Advance(s, ExecStoreId, State());
    }

    method FailStart(message: string, now: int)
      requires Valid() && (PcOf(State(), Executor).Preparing? || PcOf(State(), Executor).Failing?)
      modifies this`consumers, run
      ensures Valid() && Next(old(State()), ExecFail) == Some(State())
      ensures old(run.output) <= run.output
    {
      ghost var s := State();
      run.status := Failed;
      run.output := (if run.output == "" then "" else run.output + "\n") + "Failed to start: " + message;
      run.finishedAt := Some(now);
      consumers := consumers[Executor := Stopped];
      Advance(s, ExecFail, State());
    }

    // ----- The sidecar -----

    method ProcessExits(code: int)
      requires Valid() && job != null && job.returned.None?
      modifies job`returned
      ensures Valid() && Next(old(State()), ProcessExit(code)) == Some(State())
    {
      ghost var s := State();
      job.returned := Some(code);
      Advance(s, ProcessExit(code), State());
    }

    /** The waiting thread's first assignment, made under the table's lock. */
    method TakeCode()
      requires Valid() && job != null && job.returned.Some? && wait.Blocked?
      modifies this`wait, job`exitCode
      ensures Valid() && Next(old(State()), WaitCode) == Some(State())
    {
      ghost var s := State();
      job.exitCode := job.returned;
      wait := CodeSet;
      Advance(s, WaitCode, State());
    }

    method SetDone()
      requires Valid() && job != null && wait.CodeSet?
      modifies this`wait, job`done
      ensures Valid() && Next(old(State()), WaitDone) == Some(State())
    {
      ghost var s := State();
      job.done := true;
      wait := Finished;
      Advance(s, WaitDone, State());
    }

    /** The cleanup thread takes the job out if it is still listed and done; otherwise it does nothing. */
    method Sweep() returns (removed: bool)
      requires Valid() && job != null && wait.Finished?
      modifies this`swept, table
      ensures Valid() && removed == (old(Listed()) && job.done)
      ensures if removed then Next(old(State()), CleanupPop) == Some(State()) else State() == old(State())
      ensures table.jobs == if removed then old(table.jobs) - {jobId} else old(table.jobs)
    {
      ghost var s := State();
      if jobId !in table.jobs || !table.jobs[jobId].done {
        return false;
      }
      table.jobs := table.jobs - {jobId};
      swept := true;
      Advance(s, CleanupPop, State());
      removed := true;
    }

    method UnlinkSwept()
      requires Valid() && job != null && swept
      modifies job`files
      ensures Valid() && Next(old(State()), CleanupUnlink) == Some(State())
    {
      ghost var s := State();
      job.files := false;
      Advance(s, CleanupUnlink, State());
    }

    // ----- Viewers that have no job id yet -----

    /** A viewer of a finished run replays the stored output; any other streams, or waits for a job id. */
    method OpenViewer(v: nat) returns (replays: bool)
      requires Valid() && Viewer(v) !in consumers
      modifies this`consumers
      ensures Valid() && replays == Terminal(run.status)
      ensures if replays then State() == old(State()) else Next(old(State()), ViewerStart(v)) == Some(State())
    {
      ghost var s := State();
      if Terminal(run.status) {
        return true;
      }
      consumers := consumers[Viewer(v) := if run.sidecarJobId != "" then Idle else Waiting];
      Advance(s, ViewerStart(v), State());
      replays := false;
    }

    method WaitForId(v: nat) returns (found: bool)
      requires Valid() && PcOf(State(), Viewer(v)).Waiting?
      modifies this`consumers
      ensures Valid() && found == (run.sidecarJobId != "") && Next(old(State()), ViewerPoll(v)) == Some(State())
    {
      ghost var s := State();
      found := run.sidecarJobId != "";
      if found || Terminal(run.status) {
        consumers := consumers[Viewer(v) := if found then Idle else Stopped];
      }
      Advance(s, ViewerPoll(v), State());
    }

    // ----- Polling -----

    /** GET /run/{id}/output: first the lookup under the lock, then the status, then the exit code. */
    method LookUpJob(c: Consumer) returns (found: bool)
      requires Valid() && PcOf(State(), c).Idle? && LockFree(State())
      modifies this`consumers
      ensures Valid() && Next(old(State()), PollLookup(c)) == Some(State()) && found == Listed()
    {
      ghost var s := State();
      found := jobId in table.jobs;
      consumers := consumers[c := if found then Held else Gone];
      Advance(s, PollLookup(c), State());
    }

    method ReadStatus(c: Consumer) returns (done: bool)
      requires Valid() && PcOf(State(), c).Held? && job != null
      modifies this`consumers
      ensures Valid() && Next(old(State()), PollStatus(c)) == Some(State()) && done == job.done
    {
      ghost var s := State();
      done := job.done;
      consumers := consumers[c := if done then SawDone else Idle];
      Advance(s, PollStatus(c), State());
    }

    method ReadCode(c: Consumer) returns (code: Option<int>)
      requires Valid() && PcOf(State(), c).SawDone? && job != null
      modifies this`consumers
      ensures Valid() && Next(old(State()), PollCode(c)) == Some(State()) && PcOf(State(), c) == Got(code)
    {
      ghost var s := State();
      code := job.exitCode;
      consumers := consumers[c := Got(code)];
      Advance(s, PollCode(c), State());
    }

    /** The answer to a poll is lost; the next poll starts over. */
    method LosePoll(c: Consumer)
      requires Valid() && (PcOf(State(), c).Held? || PcOf(State(), c).SawDone?)
      modifies this`consumers
      ensures Valid() && Next(old(State()), PollLost(c)) == Some(State())
    {
      ghost var s := State();
      consumers := consumers[c := Idle];
      Advance(s, PollLost(c), State());
    }

    /** The executor's loop ends when the job is gone; it leaves the row to others. */
    method StopOrphaned()
      requires Valid() && PcOf(State(), Executor).Gone?
      modifies this`consumers
      ensures Valid() && Next(old(State()), Orphaned(Executor)) == Some(State())
    {
      ghost var s := State();
      consumers := consumers[Executor := Stopped];
      Advance(s, Orphaned(Executor), State());
    }

    /** The session block of the executor and of every viewer for a "done" event. */
    method Record(c: Consumer, code: Option<int>, now: int)
      requires Valid() && PcOf(State(), c) == Got(code)
      modifies this`consumers, run`status, run`exitCode, run`finishedAt
      ensures Valid() && Next(old(State()), RecordDone(c)) == Some(State())
    {
      ghost var s := State();
      run.status := if code == Some(0) then Success else Failed;
      run.exitCode := code;
      run.finishedAt := Some(now);
      consumers := consumers[c := Stopped];
      RecordStep(s, c, code);
      assert State() == Move(s, c, Stopped).(run := RecordedRun(s.run, code));
      Advance(s, RecordDone(c), State());
    }

    method MarkIfOpen(message: string, now: int)
      modifies run
      ensures run.Row() == MarkedIfOpen(old(run.Row())) && run.sidecarJobId == old(run.sidecarJobId)
      ensures run.output == old(run.output) + if Terminal(old(run.status)) then "" else RecoveryNote(message)
      ensures Terminal(old(run.status)) || old(run.finishedAt).Some? ==> run.finishedAt == old(run.finishedAt)
    {
      if run.status == Pending || run.status == Running {
        run.MarkFailed(message, now);
      }
    }

    /** A viewer that never saw a job id gives up. */
    method GiveUp(v: nat, now: int)
      requires Valid() && PcOf(State(), Viewer(v)).Waiting?
      modifies this`consumers, run
      ensures Valid() && Next(old(State()), ViewerTimeout(v)) == Some(State())
      ensures Terminal(old(run.status)) ==> run.output == old(run.output)
    {
      ghost var s := State();
      MarkIfOpen("run did not start in time and never received a sidecar job id", now);
      consumers := consumers[Viewer(v) := Stopped];
      Advance(s, ViewerTimeout(v), State());
    }

    /** A viewer that was told the job is gone. */
    method ReportOrphaned(v: nat, message: string, now: int)
      requires Valid() && PcOf(State(), Viewer(v)).Gone?
      modifies this`consumers, run
      ensures Valid() && Next(old(State()), Orphaned(Viewer(v))) == Some(State())
      ensures Terminal(old(run.status)) ==> run.output == old(run.output)
    {
      ghost var s := State();
      MarkIfOpen(message, now);
      consumers := consumers[Viewer(v) := Stopped];
      Advance(s, Orphaned(Viewer(v)), State());
    }

    // ----- Recovery -----

    /** The check begins: it acts on an open run that has a job id, or that has had none for too long. */
    method BeginRecovery(r: nat, now: int) returns (acts: bool)
      requires Valid() && r !in recoveries
      modifies this`recoveries
      ensures Valid()
      ensures acts <==> !Terminal(run.status)
                        && (run.sidecarJobId == "" ==> now - run.createdAt >= RUN_START_TIMEOUT_SECONDS)
      ensures if acts then Next(old(State()), RecoverRead(r)) == Some(State()) else State() == old(State())
    {
      ghost var s := State();
      if run.status != Pending && run.status != Running {
        return false;
      }
      if run.sidecarJobId == "" && now - run.createdAt < RUN_START_TIMEOUT_SECONDS {
        return false;
      }
      recoveries := recoveries[r := if run.sidecarJobId != "" then Probing else Marking];
      Advance(s, RecoverRead(r), State());
      acts := true;
    }

    method ProbeJob(r: nat, ghost answered: bool) returns (present: bool)
      requires Valid() && r in recoveries && recoveries[r].Probing? && LockFree(State())
      modifies this`recoveries
      ensures Valid() && present == Listed()
      ensures Next(old(State()), if answered then RecoverProbe(r) else RecoverLost(r)) == Some(State())
      ensures r in recoveries && (recoveries[r].Marking? <==> answered && !present)
    {
      ghost var s := State();
      present := jobId in table.jobs;
      recoveries := recoveries[r := if present || !answered then Over else Marking];
      Advance(s, if answered then RecoverProbe(r) else RecoverLost(r), State());
    }

    method FinishRecovery(r: nat, message: string, now: int)
      requires Valid() && r in recoveries && recoveries[r].Marking?
      modifies this`recoveries, run
      ensures Valid() && Next(old(State()), RecoverWrite(r)) == Some(State())
      ensures old(run.finishedAt).Some? ==> run.finishedAt == old(run.finishedAt)
    {
      ghost var s := State();
      run.MarkFailed(message, now);
      recoveries := recoveries[r := Over];
      Advance(s, RecoverWrite(r), State());
    }

    // ----- Cancellation -----

    /** The request is refused when the run it reads is not open. */
    method BeginCancel(k: nat) returns (accepted: bool)
      requires Valid() && k !in cancels
      modifies this`cancels
      ensures Valid() && accepted == !Terminal(run.status)
      ensures if accepted then Next(old(State()), CancelRead(k)) == Some(State()) else State() == old(State())
    {
      ghost var s := State();
      if run.status != Pending && run.status != Running {
        return false;
      }
      cancels := cancels[k := Canceller(false, if run.sidecarJobId != "" then Called else NoCall)];
      Advance(s, CancelRead(k), State());
      accepted := true;
    }

    /** DELETE /run/{id}: the pop is made under the lock, the rest after it is released. */
    method PopJob(k: nat) returns (popped: bool)
      requires Valid() && job != null && k in cancels && cancels[k].handler.Called? && LockFree(State())
      modifies this`cancels, table
      ensures Valid() && popped == old(Listed()) && Next(old(State()), CancelPop(k)) == Some(State())
      ensures table.jobs == old(table.jobs) - {jobId}
    {
      ghost var s := State();
      popped := jobId in table.jobs;
      table.jobs := table.jobs - {jobId};
      cancels := cancels[k := cancels[k].(handler := if popped then Popped else Answered)];
      Advance(s, CancelPop(k), State());
    }

    method CheckPopped(k: nat) returns (running: bool)
      requires Valid() && job != null && k in cancels && cancels[k].handler.Popped?
      modifies this`cancels
      ensures Valid() && running == !job.done && Next(old(State()), CancelCheck(k)) == Some(State())
    {
      ghost var s := State();
      running := !job.done;
      cancels := cancels[k := cancels[k].(handler := if running then Terminating else Unlinking)];
      Advance(s, CancelCheck(k), State());
    }

    method TerminatePopped(k: nat)
      requires Valid() && job != null && k in cancels && cancels[k].handler.Terminating?
      modifies this`cancels, job`done
      ensures Valid() && Next(old(State()), CancelSetDone(k)) == Some(State())
    {
      ghost var s := State();
      job.done := true;
      cancels := cancels[k := cancels[k].(handler := SettingCode)];
      Advance(s, CancelSetDone(k), State());
    }

    method CodePopped(k: nat)
      requires Valid() && job != null && k in cancels && cancels[k].handler.SettingCode?
      modifies this`cancels, job`exitCode
      ensures Valid() && Next(old(State()), CancelSetCode(k)) == Some(State())
    {
      ghost var s := State();
      job.exitCode := Some(-1);
      cancels := cancels[k := cancels[k].(handler := Unlinking)];
      Advance(s, CancelSetCode(k), State());
    }

    method UnlinkPopped(k: nat)
      requires Valid() && job != null && k in cancels && cancels[k].handler.Unlinking?
      modifies this`cancels, job`files
      ensures Valid() && Next(old(State()), CancelUnlink(k)) == Some(State())
    {
      ghost var s := State();
      job.files := false;
      cancels := cancels[k := cancels[k].(handler := Answered)];
      Advance(s, CancelUnlink(k), State());
    }

    /** The request writes whatever the row says by then. */
    method FinishCancel(k: nat, now: int)
      requires Valid() && k in cancels && !cancels[k].wrote
      modifies this`cancels, run`status, run`finishedAt
      ensures Valid() && Next(old(State()), CancelWrite(k)) == Some(State())
    {
      ghost var s := State();
      run.status := Cancelled;
      run.finishedAt := Some(now);
      cancels := cancels[k := cancels[k].(wrote := true)];
      Advance(s, CancelWrite(k), State());
    }
  }

  lemma RecordStep(s: State, c: Consumer, code: Option<int>)
    requires PcOf(s, c) == Got(code)
    ensures Next(s, RecordDone(c)) == Some(Move(s, c, Stopped).(run := RecordedRun(s.run, code)))
  {
  }

  lemma Advance(s: State, ev: Event, t: State)
    requires Reachable(s) && Next(s, ev) == Some(t)
    ensures Reachable(t)
  {
    OneStep(s, ev);
    ReachesTransitive(START, s, t);
  }

  /** Whatever the tasks and threads have done so far: a successful row is backed by a process that returned 0, a
      terminal row has its finishing time, and a listed job has its files. */
  lemma SystemIsSound(sys: RunSystem)
    requires sys.Valid()
    ensures sys.run.status.Success? ==>
      sys.run.exitCode == Some(0) && sys.run.sidecarJobId == sys.jobId && sys.job != null && sys.job.returned == Some(0)
    ensures Terminal(sys.run.status) ==> sys.run.finishedAt.Some?
    ensures sys.Listed() ==> sys.job.files
  {
    SuccessIsReal(sys.State());
  }
}
