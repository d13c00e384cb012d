/** Who writes what in a playbook run: every field of the row and of the job, and what a poll learns, over any step
    of any interleaving. */
module RunLaw {
  import opened Prelude
  import opened RunProtocol

  // ----- The row -----

  predicate Open(status: Status) { status == Pending || status == Running }

  /** The step writes this status into the row. */
  ghost predicate Writes(s: State, ev: Event, status: Status) {
    match status
    case Pending => false
    case Running => ev == ExecBegin
    case Success => ev.RecordDone? && PcOf(s, ev.c) == Got(Some(0))
    case Failed =>
      || ev == ExecFail || ev.RecoverWrite?
      || (ev.RecordDone? && PcOf(s, ev.c) != Got(Some(0)))
      || ((ev.ViewerTimeout? || (ev.Orphaned? && ev.c != Executor)) && Open(s.run.status))
    case Cancelled => ev.CancelWrite?
  }

  ghost predicate WritesEnd(s: State, ev: Event) {
    Writes(s, ev, Success) || Writes(s, ev, Failed) || Writes(s, ev, Cancelled)
  }

  ghost predicate RowLaw(s: State, ev: Event, t: State) {
    && (forall status :: Writes(s, ev, status) ==> t.run.status == status)
    && (t.run.status != s.run.status ==> Writes(s, ev, t.run.status))
    && (if ev.RecordDone? then PcOf(s, ev.c) == Got(t.run.exitCode) else t.run.exitCode == s.run.exitCode)
    && (t.run.hasJobId <==> s.run.hasJobId || ev == ExecStoreId)
    && (t.run.finished <==> s.run.finished || WritesEnd(s, ev))
  }

  ghost predicate KeepsRow(s: State, ev: Event, t: Option<State>) { t.Some? ==> RowLaw(s, ev, t.value) }

  lemma ExecutorRow(s: State, ev: Event)
    ensures ByExecutor(ev) ==> KeepsRow(s, ev, ExecutorStep(s, ev))
  {
  }

  lemma JobRow(s: State, ev: Event)
    ensures BySidecar(ev) ==> KeepsRow(s, ev, JobStep(s, ev))
  {
  }

  lemma ViewerRow(s: State, ev: Event)
    ensures ByWaitingViewer(ev) ==> KeepsRow(s, ev, ViewerStep(s, ev))
  {
  }

  lemma PollRow(s: State, ev: Event)
    ensures ByPoller(ev) ==> KeepsRow(s, ev, PollStep(s, ev))
  {
  }

  lemma RecoverRow(s: State, ev: Event)
    ensures ByRecovery(ev) ==> KeepsRow(s, ev, RecoverStep(s, ev))
  {
  }

  predicate ByCanceller(ev: Event) {
    !ByExecutor(ev) && !BySidecar(ev) && !ByWaitingViewer(ev) && !ByPoller(ev) && !ByRecovery(ev)
  }

  lemma CancelRow(s: State, ev: Event)
    ensures ByCanceller(ev) ==> KeepsRow(s, ev, CancelStep(s, ev))
  {
  }

  /** The row becomes Running when the executor begins, Success when a fetched code 0 is recorded, Cancelled when a
      request writes, and Failed when any other code is recorded, the start fails, a recovery writes, or a viewer gives
      up or finds the job gone while the run is open; nothing else writes a status, nothing but a recorded result an
      exit code; a job id and a finishing time are never taken back. */
  lemma RowWrites(s: State, ev: Event)
    requires Next(s, ev).Some?
    ensures RowLaw(s, ev, Next(s, ev).value)
  {
    ExecutorRow(s, ev);
    JobRow(s, ev);
    ViewerRow(s, ev);
    PollRow(s, ev);
    RecoverRow(s, ev);
    CancelRow(s, ev);
  }

  // ----- The job -----

  ghost predicate JobLaw(ev: Event, j: Job, k: Job) {
    && (k.listed <==> j.listed && ev != CleanupPop && !ev.CancelPop?)
    && k.returned == (if ev.ProcessExit? then Some(ev.code) else j.returned)
    && (k.done <==> j.done || ev == WaitDone || ev.CancelSetDone?)
    && k.exitCode == (if ev == WaitCode then j.returned else if ev.CancelSetCode? then Some(-1) else j.exitCode)
    && (k.files <==> j.files && ev != CleanupUnlink && !ev.CancelUnlink?)
  }

  /** A job begins listed, with its files and without a result. */
  ghost predicate Fresh(j: Job) { j.listed && j.files && !j.done && j.returned.None? && j.exitCode.None? }

  lemma SidecarJob(s: State, ev: Event)
    requires s.job.Some? && BySidecar(ev) && JobStep(s, ev).Some?
    ensures var t := JobStep(s, ev).value; t.job.Some? && JobLaw(ev, s.job.value, t.job.value)
  {
  }

  lemma HandlerJob(s: State, ev: Event)
    requires s.job.Some? && ByCanceller(ev) && CancelStep(s, ev).Some?
    ensures var t := CancelStep(s, ev).value; t.job.Some? && JobLaw(ev, s.job.value, t.job.value)
  {
  }

  lemma OtherJob(s: State, ev: Event)
    requires Next(s, ev).Some? && !BySidecar(ev) && !ByCanceller(ev) && !ev.ExecTrigger? && !ev.ExecTriggerLost?
    ensures Next(s, ev).value.job == s.job
  {
  }

  lemma NoJobYet(s: State, ev: Event)
    requires s.job.None? && Next(s, ev).Some?
    ensures var t := Next(s, ev).value;
      if ev == ExecTrigger || ev == ExecTriggerLost then t.job.Some? && Fresh(t.job.value) else t.job.None?
  {
  }

  /** The trigger creates the job, whether or not its answer arrives.  From then on only the cleanup and a cancel take it
      out of the table, only the waiting thread and a cancel set done or a code, the waiting thread the one the process
      returned, and only those two delete its files. */
  lemma JobWrites(s: State, ev: Event)
    requires Inv(s) && Next(s, ev).Some?
    ensures var t := Next(s, ev).value;
      if s.job.Some? then t.job.Some? && JobLaw(ev, s.job.value, t.job.value)
      else if ev == ExecTrigger || ev == ExecTriggerLost then t.job.Some? && Fresh(t.job.value)
      else t.job.None?
  {
    if s.job.None? {
      NoJobYet(s, ev);
    } else if BySidecar(ev) {
      SidecarJob(s, ev);
    } else if ByCanceller(ev) {
      HandlerJob(s, ev);
    } else {
      assert !PcOf(s, Executor).Triggering?;
      OtherJob(s, ev);
    }
  }

  // ----- What a poll learns -----

  /** A consumer holds the job after a lookup that found it listed, is told it is gone after one that did not, sees it done
      after reading done, and holds the code the job shows at that moment. */
  ghost predicate LearnLaw(s: State, ev: Event, c: Consumer, t: State) {
    var before, after := PcOf(s, c), PcOf(t, c);
    && (after.Held? <==> (ev == PollLookup(c) && Listed(s)) || (before.Held? && after == before))
    && (after.Gone? <==> (ev == PollLookup(c) && !Listed(s)) || (before.Gone? && after == before))
    && (after.SawDone? <==> (ev == PollStatus(c) && s.job.Some? && s.job.value.done) || (before.SawDone? && after == before))
    && (after.Got? && after != before ==> ev == PollCode(c) && s.job.Some? && after.code == s.job.value.exitCode)
    && (ev == PollCode(c) ==> after.Got?)
  }

  ghost predicate Learns(s: State, ev: Event, c: Consumer, t: Option<State>) { t.Some? ==> LearnLaw(s, ev, c, t.value) }

  lemma PollLearns(s: State, ev: Event, c: Consumer)
    ensures ByPoller(ev) ==> Learns(s, ev, c, PollStep(s, ev))
  {
  }

  lemma ExecutorLearns(s: State, ev: Event, c: Consumer)
    ensures ByExecutor(ev) ==> Learns(s, ev, c, ExecutorStep(s, ev))
  {
  }

  lemma ViewerLearns(s: State, ev: Event, c: Consumer)
    ensures ByWaitingViewer(ev) ==> Learns(s, ev, c, ViewerStep(s, ev))
  {
  }

  lemma SameConsumers(s: State, ev: Event)
    requires BySidecar(ev) || ByRecovery(ev) || ByCanceller(ev)
    ensures Next(s, ev).Some? ==> Next(s, ev).value.consumers == s.consumers
  {
  }

  /** What a consumer of the output knows about the job is what the sidecar showed it at its own last poll. */
  lemma LearnsAtItsPolls(s: State, ev: Event, c: Consumer)
    requires Next(s, ev).Some?
    ensures LearnLaw(s, ev, c, Next(s, ev).value)
  {
    if ByPoller(ev) {
      PollLearns(s, ev, c);
    } else if ByExecutor(ev) {
      ExecutorLearns(s, ev, c);
    } else if ByWaitingViewer(ev) {
      ViewerLearns(s, ev, c);
    } else {
      SameConsumers(s, ev);
    }
  }
}
