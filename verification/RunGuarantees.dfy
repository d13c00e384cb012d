/** What the run protocol guarantees: one removal per job, agreement of all consumers, and when a
    cancellation is final. */
module RunGuarantees {
  import opened Prelude
  import opened RunProtocol
  import opened RunLaw

  // ----- The sidecar's table -----

  predicate Removes(s: State, ev: Event) {
    Listed(s) && Next(s, ev).Some? && !Listed(Next(s, ev).value)
  }

  function Removals(s: State, evs: seq<Event>): nat
    requires After(s, evs).Some?
  {
    if evs == [] then 0
    else Removals(s, Init(evs)) + (if Removes(After(s, Init(evs)).value, Last(evs)) then 1 else 0)
  }

  /** The job only moves forward: it is never listed again, done, a deletion and what the process returned are
      never taken back, and files go only after the job has left the table. */
  ghost predicate Forward(ev: Event, j: Job, k: Job) {
    && (k.listed ==> j.listed)
    && (j.done ==> k.done)
    && (j.returned.Some? ==> k.returned == j.returned)
    && (k.files ==> j.files)
    && (j.files && !k.files ==> !j.listed && (ev.CleanupUnlink? || ev.CancelUnlink?))
    && (j.listed && !k.listed ==> ev.CleanupPop? || ev.CancelPop?)
  }

  lemma OthersLeaveJob(s: State, ev: Event)
    requires Inv(s) && Next(s, ev).Some? && s.job.Some? && !BySidecar(ev)
    requires Next(s, ev) != HandlerStep(s, ev)
    ensures Next(s, ev).value.job == s.job
  {
    assert !PcOf(s, Executor).Triggering?;
  }

  lemma JobStepMonotone(s: State, ev: Event)
    requires Inv(s) && Next(s, ev).Some? && s.job.Some?
    ensures var t := Next(s, ev).value; t.job.Some? && Forward(ev, s.job.value, t.job.value)
  {
    if !BySidecar(ev) && Next(s, ev) != HandlerStep(s, ev) {
      OthersLeaveJob(s, ev);
    }
  }

  ghost function Gone(s: State): nat { if s.job.Some? && !Listed(s) then 1 else 0 }

  lemma RemovedOnce(s: State, ev: Event)
    requires Inv(s) && Next(s, ev).Some?
    ensures Gone(Next(s, ev).value) == Gone(s) + if Removes(s, ev) then 1 else 0
  {
    if s.job.Some? {
      JobStepMonotone(s, ev);
    } else {
      NewJobListed(s, ev);
    }
  }

  lemma NewJobListed(s: State, ev: Event)
    requires s.job.None? && Next(s, ev).Some?
    ensures Next(s, ev).value.job.Some? ==> Listed(Next(s, ev).value)
  {
  }

  /** In every interleaving the job leaves the table at most once, and has left it exactly once when it is there no
      more; and while it is listed its files exist. */
  lemma {:induction false} LeavesOnce(evs: seq<Event>)
    requires After(START, evs).Some?
    ensures var s := After(START, evs).value;
      Removals(START, evs) == (if s.job.Some? && !Listed(s) then 1 else 0) && (Listed(s) ==> s.job.value.files)
  {
    InvAfter(START, evs);
    if evs != [] {
      LeavesOnce(Init(evs));
      InvAfter(START, Init(evs));
      RemovedOnce(After(START, Init(evs)).value, Last(evs));
    }
  }

  // ----- Agreement of the consumers when nobody cancels -----

  ghost predicate NoCancelInv(s: State) {
    && s.cancels == map[]
    && (s.job.Some? ==>
          var job := s.job.value;
          && (job.done <==> job.wait.Finished?)
          && job.exitCode == (if job.wait.Blocked? then None else job.returned)
          && (!job.listed ==> job.wait.Finished?))
    && forall c :: c in s.consumers && s.consumers[c].Got? ==>
         s.job.Some? && s.job.value.done && s.consumers[c].code == s.job.value.exitCode
  }

  ghost predicate KeepsNoCancel(s: State, t: Option<State>) {
    Inv(s) && NoCancelInv(s) && t.Some? ==> NoCancelInv(t.value)
  }

  lemma NoCancelJob(s: State, ev: Event)
    ensures KeepsNoCancel(s, JobStep(s, ev))
  {
  }

  lemma NoCancelExecutor(s: State, ev: Event)
    ensures KeepsNoCancel(s, ExecutorStep(s, ev))
  {
  }

  lemma NoCancelPoll(s: State, ev: Event)
    ensures KeepsNoCancel(s, PollStep(s, ev))
  {
  }

  lemma NoCancelStep(s: State, ev: Event)
    requires Inv(s) && NoCancelInv(s) && Next(s, ev).Some? && Next(s, ev).value.cancels == map[]
    ensures NoCancelInv(Next(s, ev).value)
  {
    if ByExecutor(ev) {
      NoCancelExecutor(s, ev);
    } else if BySidecar(ev) {
      NoCancelJob(s, ev);
    } else if ByPoller(ev) {
      NoCancelPoll(s, ev);
    }
  }

  // Who touches the requests and the recoveries in flight.

  ghost predicate SameFlights(s: State, t: Option<State>) {
    t.Some? ==> t.value.cancels == s.cancels && t.value.recoveries == s.recoveries
  }

  ghost predicate MoreCancels(s: State, t: Option<State>) {
    t.Some? ==> s.cancels.Keys <= t.value.cancels.Keys && t.value.recoveries == s.recoveries
  }

  lemma ExecutorFlights(s: State, ev: Event)
    ensures SameFlights(s, ExecutorStep(s, ev))
  {
  }

  lemma JobFlights(s: State, ev: Event)
    ensures SameFlights(s, JobStep(s, ev))
  {
  }

  lemma ViewerFlights(s: State, ev: Event)
    ensures SameFlights(s, ViewerStep(s, ev))
  {
  }

  lemma PollFlights(s: State, ev: Event)
    ensures SameFlights(s, PollStep(s, ev))
  {
  }

  lemma CancelFlights(s: State, ev: Event)
    ensures MoreCancels(s, CancelStep(s, ev))
  {
  }

  lemma Flights(s: State, ev: Event)
    requires Next(s, ev).Some?
    ensures var t := Next(s, ev).value;
      s.cancels.Keys <= t.cancels.Keys && (!ByRecovery(ev) ==> t.recoveries == s.recoveries)
  {
    if ByExecutor(ev) {
      ExecutorFlights(s, ev);
    } else if BySidecar(ev) {
      JobFlights(s, ev);
    } else if ByWaitingViewer(ev) {
      ViewerFlights(s, ev);
    } else if ByPoller(ev) {
      PollFlights(s, ev);
    } else if !ByRecovery(ev) {
      CancelFlights(s, ev);
    }
  }

  lemma {:induction false} NoCancelAfter(s: State, evs: seq<Event>)
    requires Inv(s) && NoCancelInv(s) && After(s, evs).Some? && After(s, evs).value.cancels == map[]
    ensures Inv(After(s, evs).value) && NoCancelInv(After(s, evs).value)
  {
    if evs != [] {
      var m := After(s, Init(evs)).value;
      Flights(m, Last(evs));
      assert m.cancels == map[];
      NoCancelAfter(s, Init(evs));
      NoCancelStep(m, Last(evs));
      InvStep(m, Last(evs));
    }
  }

  /** The row says what the finished job says. */
  ghost predicate Settled(s: State) {
    && s.job.Some? && s.job.value.done && s.run.hasJobId
    && s.run.status == Verdict(s.job.value.exitCode) && s.run.exitCode == s.job.value.exitCode
  }

  predicate SameVerdict(s: State, t: State) { s.run.status == t.run.status && s.run.exitCode == t.run.exitCode }

  lemma RecordSettles(s: State, c: Consumer)
    requires Inv(s) && NoCancelInv(s) && Next(s, RecordDone(c)).Some?
    ensures Settled(Next(s, RecordDone(c)).value)
  {
    assert c in s.consumers && Streaming(s.consumers[c]);
  }

  /** Once settled, the only step that changes the verdict is a recovery that read the row while the run was
      open and writes its own verdict over a success. */
  lemma SettledStep(s: State, ev: Event)
    requires Inv(s) && NoCancelInv(s) && Settled(s) && Next(s, ev).Some? && Next(s, ev).value.cancels == map[]
    ensures SameVerdict(s, Next(s, ev).value) <==> !(ev.RecoverWrite? && s.run.status.Success?)
    ensures SameVerdict(s, Next(s, ev).value) ==> Settled(Next(s, ev).value)
  {
    var t := Next(s, ev).value;
    if ev.RecordDone? {
      RecordSettles(s, ev.c);
    }
  }

  /** No recovery that read the run while it was open still has to probe or to write, if the run is a success. */
  ghost predicate NoneInFlight(s: State) {
    s.run.status.Success? ==> forall r :: r in s.recoveries ==> s.recoveries[r].Over?
  }

  lemma QuietRecoveryStep(s: State, ev: Event)
    requires Inv(s) && NoCancelInv(s) && Settled(s) && NoneInFlight(s)
    requires Next(s, ev).Some? && Next(s, ev).value.cancels == map[]
    ensures SameVerdict(s, Next(s, ev).value) && Settled(Next(s, ev).value) && NoneInFlight(Next(s, ev).value)
  {
    SettledStep(s, ev);
    if s.run.status.Success? {
      RecoveriesStay(s, ev);
    }
  }

  lemma RecoveriesStay(s: State, ev: Event)
    requires Terminal(s.run.status) && Next(s, ev).Some?
    requires forall r :: r in s.recoveries ==> s.recoveries[r].Over?
    ensures Next(s, ev).value.recoveries == s.recoveries && !ev.RecoverWrite?
  {
    NoRecovery(s, ev);
    Flights(s, ev);
  }

  lemma NoRecovery(s: State, ev: Event)
    requires Terminal(s.run.status) && forall r :: r in s.recoveries ==> s.recoveries[r].Over?
    ensures RecoverStep(s, ev).None?
  {
  }

  lemma {:induction false} SettledAfter(s: State, evs: seq<Event>)
    requires Inv(s) && NoCancelInv(s) && Settled(s) && NoneInFlight(s)
    requires After(s, evs).Some? && After(s, evs).value.cancels == map[]
    ensures var t := After(s, evs).value; SameVerdict(s, t) && Settled(t) && NoneInFlight(t)
  {
    if evs != [] {
      var m := After(s, Init(evs)).value;
      Flights(m, Last(evs));
      assert m.cancels == map[];
      SettledAfter(s, Init(evs));
      NoCancelAfter(s, Init(evs));
      QuietRecoveryStep(m, Last(evs));
    }
  }

  /** Nothing that can happen without a cancellation changes the verdict. */
  ghost predicate VerdictIsFinal(s: State) {
    forall t :: Reaches(s, t) && t.cancels == map[] ==> SameVerdict(s, t)
  }

  /** A settled verdict is final exactly when it is not a success with a recovery still in flight. */
  lemma SettledForGood(s: State)
    requires Inv(s) && NoCancelInv(s) && Settled(s)
    ensures VerdictIsFinal(s) <==> NoneInFlight(s)
  {
    if NoneInFlight(s) {
      forall t | Reaches(s, t) && t.cancels == map[] ensures SameVerdict(s, t) {
        var evs :| After(s, evs) == Some(t);
        SettledAfter(s, evs);
      }
    } else {
      var r :| r in s.recoveries && !s.recoveries[r].Over?;
      var t := RecoveryOverwrites(s, r);
      assert !SameVerdict(s, t);
    }
  }

  /** Run agreement: without cancellation, once any consumer has recorded "done" the exit code is what the process
      returned, and whatever the executor, other viewers and recoveries still do, status and exit code never change
      again, exactly unless the run is a success and a recovery that read it open is still in flight. */
  lemma RunAgreement(evs: seq<Event>, c: Consumer)
    requires After(START, evs + [RecordDone(c)]).Some?
    requires After(START, evs + [RecordDone(c)]).value.cancels == map[]
    ensures var s := After(START, evs + [RecordDone(c)]).value;
      && s.job.Some? && s.run.exitCode == s.job.value.returned && s.run.status == Verdict(s.job.value.returned)
      && (VerdictIsFinal(s) <==> NoneInFlight(s))
  {
    var all := evs + [RecordDone(c)];
    assert Init(all) == evs && Last(all) == RecordDone(c);
    var m, s := After(START, evs).value, After(START, all).value;
    Flights(m, RecordDone(c));
    assert m.cancels == map[];
    NoCancelAfter(START, evs);
    NoCancelAfter(START, all);
    RecordSettles(m, c);
    SettledForGood(s);
  }

  // ----- What a recovery may do -----

  ghost predicate InRecovery(s: State, r: nat, pc: RecoverPc) { r in s.recoveries && s.recoveries[r] == pc }

  lemma ProbeStep(s: State, ev: Event, r: nat)
    requires InRecovery(s, r, Probing) && RecoverStep(s, ev).Some?
    ensures var t := RecoverStep(s, ev).value;
      && (InRecovery(t, r, Marking) <==> ev == RecoverProbe(r) && !Listed(s))
      && (InRecovery(t, r, Over) <==> (ev == RecoverProbe(r) && Listed(s)) || ev == RecoverLost(r))
      && r in t.recoveries && t.job == s.job && t.run.hasJobId == s.run.hasJobId
  {
  }

  /** A recovery that has to probe the sidecar goes on to mark the run exactly when the sidecar answers that the job is
      not there; an answer that it is there, or no answer, ends the recovery; no other step moves it. */
  lemma ProbeDecides(s: State, ev: Event, r: nat)
    requires InRecovery(s, r, Probing) && Next(s, ev).Some?
    ensures var t := Next(s, ev).value;
      && (InRecovery(t, r, Marking) <==> ev == RecoverProbe(r) && !Listed(s))
      && (InRecovery(t, r, Over) <==> (ev == RecoverProbe(r) && Listed(s)) || ev == RecoverLost(r))
      && r in t.recoveries
  {
    Flights(s, ev);
    if ByRecovery(ev) {
      ProbeStep(s, ev, r);
    }
  }

  /** A recovery that has not yet probed, or has found the job gone, or is over. */
  ghost predicate Justified(s: State, r: nat) {
    && r in s.recoveries && s.run.hasJobId && s.job.Some?
    && (s.recoveries[r].Marking? ==> !s.job.value.listed)
  }

  lemma OtherRecovery(s: State, ev: Event, r: nat)
    requires r in s.recoveries && !s.recoveries[r].Probing? && RecoverStep(s, ev).Some?
    ensures var t := RecoverStep(s, ev).value;
      r in t.recoveries && (t.recoveries[r].Marking? ==> s.recoveries[r].Marking?) && t.job == s.job
  {
  }

  lemma JustifiedStep(s: State, ev: Event, r: nat)
    requires Inv(s) && Justified(s, r) && Next(s, ev).Some?
    ensures Justified(Next(s, ev).value, r)
  {
    var t := Next(s, ev).value;
    JobStepMonotone(s, ev);
    IdStays(s, ev);
    Flights(s, ev);
    if s.recoveries[r].Probing? {
      ProbeDecides(s, ev, r);
    } else if ByRecovery(ev) {
      OtherRecovery(s, ev, r);
    }
  }

  lemma IdStays(s: State, ev: Event)
    requires Next(s, ev).Some? && s.run.hasJobId
    ensures Next(s, ev).value.run.hasJobId
  {
    RowWrites(s, ev);
  }

  lemma {:induction false} JustifiedAfter(s: State, evs: seq<Event>, r: nat)
    requires Inv(s) && Justified(s, r) && After(s, evs).Some?
    ensures Justified(After(s, evs).value, r)
  {
    if evs != [] {
      JustifiedAfter(s, Init(evs), r);
      InvAfter(s, Init(evs));
      JustifiedStep(After(s, Init(evs)).value, Last(evs), r);
    }
  }

  lemma JustifiedSince(before: seq<Event>, r: nat, more: seq<Event>)
    requires After(START, before).Some? && After(START, before).value.run.hasJobId
    requires After(START, before + [RecoverRead(r)] + more).Some?
    ensures Justified(After(START, before + [RecoverRead(r)] + more).value, r)
  {
    var read := before + [RecoverRead(r)];
    AfterPrefix(START, read, more);
    AfterAppend(START, read, more);
    assert Init(read) == before && Last(read) == RecoverRead(r);
    InvAfter(START, before);
    InvAfter(START, read);
    ReadJustified(After(START, before).value, r);
    JustifiedAfter(After(START, read).value, more, r);
  }

  lemma SweptWhenGone(s: State)
    requires NoCancelInv(s) && s.job.Some? && !Listed(s) && Inv(s)
    ensures s.job.value.returned.Some? && s.job.value.done
  {
  }

  /** In every interleaving, a recovery that read a stored job id marks the run failed only after the job has left the
      sidecar's table; without cancellation, only after its process has ended and the cleanup has swept it.  So looking
      at a run whose job is listed never harms it. */
  lemma RecoveryIsJustified(before: seq<Event>, r: nat, more: seq<Event>)
    requires After(START, before).Some? && After(START, before).value.run.hasJobId
    requires After(START, before + [RecoverRead(r)] + more).Some?
    ensures var s := After(START, before + [RecoverRead(r)] + more).value;
      Next(s, RecoverWrite(r)).Some? ==>
        && s.job.Some? && !Listed(s)
        && (s.cancels == map[] ==> s.job.value.returned.Some? && s.job.value.done)
  {
    var evs := before + [RecoverRead(r)] + more;
    var s := After(START, evs).value;
    JustifiedSince(before, r, more);
    if Next(s, RecoverWrite(r)).Some? && s.cancels == map[] {
      NoCancelAfter(START, evs);
      SweptWhenGone(s);
    }
  }

  lemma ReadJustified(s: State, r: nat)
    requires Inv(s) && s.run.hasJobId && Next(s, RecoverRead(r)).Some?
    ensures InRecovery(Next(s, RecoverRead(r)).value, r, Probing) && Justified(Next(s, RecoverRead(r)).value, r)
  {
  }

  lemma {:induction false} AfterPrefix(s: State, evs: seq<Event>, more: seq<Event>)
    requires After(s, evs + more).Some?
    ensures After(s, evs).Some?
  {
    if more == [] {
      assert evs + more == evs;
    } else {
      assert Init(evs + more) == evs + Init(more);
      AfterPrefix(s, evs, Init(more));
    }
  }

  // ----- What a job and a recovery in flight can still do -----

  lemma Extend(s: State, t: State, ev: Event, u: State)
    requires Reaches(s, t) && Next(t, ev) == Some(u)
    ensures Reaches(s, u)
  {
    OneStep(t, ev);
    ReachesTransitive(s, t, u);
  }

  ghost predicate JobOnly(s: State, t: State) {
    && Inv(t) && Reaches(s, t) && t == s.(job := t.job)
    && s.job.Some? && t.job.Some? && t.job.value.listed == s.job.value.listed
  }

  lemma EndProcess(s: State) returns (t: State)
    requires Inv(s) && s.job.Some?
    ensures JobOnly(s, t) && t.job.value.returned.Some?
  {
    assert After(s, []) == Some(s);
    t := s;
    if s.job.value.returned.None? {
      t := Proceed(s, s, ProcessExit(0));
    }
  }

  lemma SetCode(s: State) returns (t: State)
    requires Inv(s) && s.job.Some? && s.job.value.returned.Some?
    ensures JobOnly(s, t) && !t.job.value.wait.Blocked?
  {
    assert After(s, []) == Some(s);
    t := s;
    if s.job.value.wait.Blocked? {
      t := Proceed(s, s, WaitCode);
    }
  }

  lemma SetDone(s: State) returns (t: State)
    requires Inv(s) && s.job.Some? && !s.job.value.wait.Blocked?
    ensures JobOnly(s, t) && t.job.value.wait.Finished?
  {
    assert After(s, []) == Some(s);
    t := s;
    if s.job.value.wait.CodeSet? {
      t := Proceed(s, s, WaitDone);
    }
  }

  /** Whatever the job is doing, its process can end and the waiting thread can finish. */
  lemma Finish(s: State) returns (t: State)
    requires Inv(s) && s.job.Some?
    ensures JobOnly(s, t) && t.job.value.wait.Finished?
  {
    var a := EndProcess(s);
    var b := SetCode(a);
    t := SetDone(b);
    ReachesTransitive(s, a, b);
    ReachesTransitive(s, b, t);
  }

  lemma Proceed(s: State, t: State, ev: Event) returns (u: State)
    requires Reaches(s, t) && Inv(t) && Next(t, ev).Some?
    ensures u == Next(t, ev).value && Reaches(s, u) && Inv(u)
  {
    u := Next(t, ev).value;
    Extend(s, t, ev, u);
    InvStep(t, ev);
  }

  /** A recovery that has found the job missing marks the run failed. */
  lemma MarkingOverwrites(s: State, r: nat) returns (t: State)
    requires r in s.recoveries && s.recoveries[r].Marking?
    ensures Reaches(s, t) && t.run == MarkedFailed(s.run) && t.cancels == s.cancels
  {
    t := Next(s, RecoverWrite(r)).value;
    OneStep(s, RecoverWrite(r));
  }

  lemma ProbingOverwrites(s: State, r: nat) returns (t: State)
    requires r in s.recoveries && s.recoveries[r].Probing? && LockFree(s) && !Listed(s)
    ensures Reaches(s, t) && t.run == MarkedFailed(s.run) && t.cancels == s.cancels
  {
    var a := Next(s, RecoverProbe(r)).value;
    OneStep(s, RecoverProbe(r));
    t := MarkingOverwrites(a, r);
    ReachesTransitive(s, a, t);
  }

  /** A recovery still in flight can mark the run failed whatever has been recorded: the job can end and be swept
      before it probes. */
  lemma RecoveryOverwrites(s: State, r: nat) returns (t: State)
    requires Inv(s) && r in s.recoveries && !s.recoveries[r].Over?
    ensures Reaches(s, t) && t.run == MarkedFailed(s.run) && t.cancels == s.cancels
  {
    if s.recoveries[r].Marking? {
      t := MarkingOverwrites(s, r);
    } else {
      var a := Finish(s);
      if Listed(a) {
        a := Proceed(s, a, CleanupPop);
      }
      t := ProbingOverwrites(a, r);
      ReachesTransitive(s, a, t);
    }
  }

  // ----- Two runs that go wrong -----

  /** The executor starts the job and begins to stream. */
  lemma StartStreaming(s: State) returns (t: State)
    requires PcOf(s, Executor).Preparing?
    ensures t == s.(run := s.run.(status := Running, hasJobId := true), job := Some(NEW_JOB),
                    consumers := s.consumers[Executor := Idle])
    ensures Reaches(s, t)
  {
    var a := s.(run := s.run.(status := Running), consumers := s.consumers[Executor := Triggering]);
    var b := a.(job := Some(NEW_JOB), consumers := s.consumers[Executor := HasId]);
    t := s.(run := s.run.(status := Running, hasJobId := true), job := Some(NEW_JOB),
            consumers := s.consumers[Executor := Idle]);
    assert s.consumers[Executor := Triggering][Executor := HasId] == s.consumers[Executor := HasId];
    assert s.consumers[Executor := HasId][Executor := Idle] == s.consumers[Executor := Idle];
    OneStep(s, ExecBegin);
    Extend(s, a, ExecTrigger, b);
    Extend(s, b, ExecStoreId, t);
  }

  const DONE_JOB := Job(true, Some(0), true, Some(0), true, false, Finished)

  lemma EndWell(s: State) returns (t: State)
    requires s.job == Some(NEW_JOB)
    ensures t == s.(job := Some(DONE_JOB)) && Reaches(s, t)
  {
    var a := s.(job := Some(NEW_JOB.(returned := Some(0))));
    var b := s.(job := Some(NEW_JOB.(returned := Some(0), exitCode := Some(0), wait := CodeSet)));
    t := s.(job := Some(DONE_JOB));
    OneStep(s, ProcessExit(0));
    Extend(s, a, WaitCode, b);
    Extend(s, b, WaitDone, t);
  }

  /** The executor fetches and records the result; the job may have left the table after the lookup. */
  lemma FetchAndRecord(s: State) returns (t: State)
    requires PcOf(s, Executor).Held? && s.job.Some? && s.job.value.done && s.job.value.exitCode == Some(0)
    ensures t == s.(run := RecordedRun(s.run, Some(0)), consumers := s.consumers[Executor := Stopped])
    ensures Reaches(s, t)
  {
    t := s.(run := RecordedRun(s.run, Some(0)), consumers := s.consumers[Executor := Stopped]);
    var a, b := Move(s, Executor, SawDone), Move(s, Executor, Got(Some(0)));
    assert s.consumers[Executor := SawDone][Executor := Got(Some(0))] == s.consumers[Executor := Got(Some(0))];
    assert s.consumers[Executor := Got(Some(0))][Executor := Stopped] == s.consumers[Executor := Stopped];
    OneStep(s, PollStatus(Executor));
    Extend(s, a, PollCode(Executor), b);
    Extend(s, b, RecordDone(Executor), t);
  }

  function Streamed(recoveries: map<nat, RecoverPc>, cancels: map<nat, Canceller>): State {
    State(Run(Running, None, true, cancels != map[]), Some(DONE_JOB), map[Executor := Idle], recoveries, cancels)
  }

  /** The run is under way, its process has ended well, and a recovery that read it open has still to probe. */
  lemma RecoveryInFlight()
    ensures Reachable(Streamed(map[0 := Probing], map[]))
  {
    var s1 := StartStreaming(START);
    var s2 := s1.(recoveries := map[0 := Probing]);
    assert map[Executor := Preparing][Executor := Idle] == map[Executor := Idle];
    Extend(START, s1, RecoverRead(0), s2);
    var s3 := EndWell(s2);
    ReachesTransitive(START, s2, s3);
  }

  /** A slow recovery breaks the agreement: it reads an open run, the run succeeds, and the recovery then finds the
      job swept and marks the successful run failed. */
  lemma SlowRecoveryOverwritesSuccess() returns (s: State, t: State)
    ensures Reachable(s) && s.cancels == map[] && s.run == Run(Success, Some(0), true, true)
    ensures Reaches(s, t) && t.cancels == map[] && t.run == Run(Failed, Some(0), true, true)
  {
    RecoveryInFlight();
    var a := Streamed(map[0 := Probing], map[]);
    var b := Move(a, Executor, Held);
    Extend(START, a, PollLookup(Executor), b);
    s := FetchAndRecord(b);
    ReachesTransitive(START, b, s);
    SuccessIsReal(s);
    t := RecoveryOverwrites(s, 0);
  }

  /** Cancelling a run that has not been triggered yet does not stop it: it runs and can end as a success. */
  lemma EarlyCancelIsLost() returns (cancelled: State, s: State)
    ensures After(START, [CancelRead(0), CancelWrite(0)]) == Some(cancelled) && cancelled.run.status.Cancelled?
    ensures Reaches(cancelled, s) && s.run.status.Success?
  {
    cancelled := START.(cancels := map[0 := Canceller(true, NoCall)], run := CancelledRun(START.run));
    CancelAtOnce(cancelled);
    s := SucceedAnyway(cancelled);
  }

  lemma CancelAtOnce(cancelled: State)
    requires cancelled == START.(cancels := map[0 := Canceller(true, NoCall)], run := CancelledRun(START.run))
    ensures After(START, [CancelRead(0), CancelWrite(0)]) == Some(cancelled)
  {
    var read := START.(cancels := map[0 := Canceller(false, NoCall)]);
    assert Init([CancelRead(0), CancelWrite(0)]) == [CancelRead(0)] && Init([CancelRead(0)]) == [];
    assert Next(START, CancelRead(0)) == Some(read);
    assert After(START, [CancelRead(0)]) == Some(read);
    assert read.cancels[0 := Canceller(true, NoCall)] == cancelled.cancels;
    assert Next(read, CancelWrite(0)) == Some(cancelled);
  }

  lemma SucceedAnyway(s: State) returns (t: State)
    requires PcOf(s, Executor).Preparing?
    ensures Reaches(s, t) && t.run.status.Success?
  {
    var a := StartStreaming(s);
    var b := EndWell(a);
    ReachesTransitive(s, a, b);
    var c := Move(b, Executor, Held);
    assert Next(b, PollLookup(Executor)) == Some(c);
    Extend(s, b, PollLookup(Executor), c);
    t := FetchAndRecord(c);
    ReachesTransitive(s, c, t);
  }

  // ----- When a cancellation is final -----

  /** Nothing in flight can still write: the executor is past its start, no response of the sidecar is under
      way, no recovery is deciding, and if the job is still listed nobody is left to poll it. */
  ghost predicate Quiet(s: State) {
    && !PcOf(s, Executor).Preparing? && !PcOf(s, Executor).Triggering? && !PcOf(s, Executor).Failing?
    && (forall c :: c in s.consumers ==> !s.consumers[c].Held? && !s.consumers[c].SawDone? && !s.consumers[c].Got?)
    && (forall r :: r in s.recoveries ==> s.recoveries[r].Over?)
    && (Listed(s) ==>
          && !PcOf(s, Executor).HasId?
          && forall c :: c in s.consumers ==> !s.consumers[c].Idle? && !(s.run.hasJobId && s.consumers[c].Waiting?))
  }

  ghost predicate StaysQuiet(s: State, t: Option<State>) {
    Inv(s) && s.run.status.Cancelled? && Quiet(s) && t.Some? ==> t.value.run.status.Cancelled? && Quiet(t.value)
  }

  lemma QuietExecutor(s: State, ev: Event)
    ensures StaysQuiet(s, ExecutorStep(s, ev))
  {
  }

  lemma QuietJob(s: State, ev: Event)
    ensures StaysQuiet(s, JobStep(s, ev))
  {
  }

  lemma QuietViewer(s: State, ev: Event)
    ensures StaysQuiet(s, ViewerStep(s, ev))
  {
  }

  lemma QuietPoll(s: State, ev: Event)
    ensures StaysQuiet(s, PollStep(s, ev))
  {
  }

  lemma QuietHandler(s: State, ev: Event)
    ensures StaysQuiet(s, HandlerStep(s, ev))
  {
  }

  lemma QuietCancel(s: State, ev: Event)
    ensures StaysQuiet(s, CancelStep(s, ev))
  {
    if !ev.CancelRead? && !ev.CancelWrite? {
      QuietHandler(s, ev);
    }
  }

  lemma QuietStep(s: State, ev: Event)
    ensures StaysQuiet(s, Next(s, ev))
  {
    if ByExecutor(ev) {
      QuietExecutor(s, ev);
    } else if BySidecar(ev) {
      QuietJob(s, ev);
    } else if ByWaitingViewer(ev) {
      QuietViewer(s, ev);
    } else if ByPoller(ev) {
      QuietPoll(s, ev);
    } else if !ByRecovery(ev) {
      QuietCancel(s, ev);
    }
  }

  lemma {:induction false} QuietAfter(s: State, evs: seq<Event>)
    requires Inv(s) && s.run.status.Cancelled? && Quiet(s) && After(s, evs).Some?
    ensures After(s, evs).value.run.status.Cancelled? && Quiet(After(s, evs).value)
  {
    if evs != [] {
      QuietAfter(s, Init(evs));
      InvAfter(s, Init(evs));
      QuietStep(After(s, Init(evs)).value, Last(evs));
    }
  }

  ghost predicate Escape(s: State, t: State) { Reaches(s, t) && !t.run.status.Cancelled? }

  lemma EscapeLater(s: State, ev: Event, t: State)
    requires Next(s, ev).Some? && Escape(Next(s, ev).value, t)
    ensures Escape(s, t)
  {
    OneStep(s, ev);
    ReachesTransitive(s, Next(s, ev).value, t);
  }

  lemma EscapeNow(s: State, ev: Event) returns (t: State)
    requires Next(s, ev).Some? && !Next(s, ev).value.run.status.Cancelled?
    ensures Escape(s, t)
  {
    t := Next(s, ev).value;
    OneStep(s, ev);
  }

  lemma EscapeSawDone(s: State, c: Consumer) returns (t: State)
    requires Inv(s) && PcOf(s, c).SawDone?
    ensures Escape(s, t)
  {
    t := EscapeNow(Next(s, PollCode(c)).value, RecordDone(c));
    EscapeLater(s, PollCode(c), t);
  }

  lemma EscapeHeld(s: State, c: Consumer) returns (t: State)
    requires Inv(s) && PcOf(s, c).Held?
    ensures Escape(s, t)
  {
    assert c in s.consumers && Streaming(s.consumers[c]);
    var a := Finish(s);
    InvStep(a, PollStatus(c));
    t := EscapeSawDone(Next(a, PollStatus(c)).value, c);
    EscapeLater(a, PollStatus(c), t);
    ReachesTransitive(s, a, t);
  }

  lemma EscapeIdle(s: State, c: Consumer) returns (t: State)
    requires Inv(s) && PcOf(s, c).Idle? && Listed(s)
    ensures Escape(s, t)
  {
    var a := Finish(s);
    InvStep(a, PollLookup(c));
    t := EscapeHeld(Next(a, PollLookup(c)).value, c);
    EscapeLater(a, PollLookup(c), t);
    ReachesTransitive(s, a, t);
  }

  lemma EscapeStart(s: State) returns (t: State)
    requires PcOf(s, Executor).Preparing? || PcOf(s, Executor).Triggering? || PcOf(s, Executor).Failing?
    ensures Escape(s, t)
  {
    if PcOf(s, Executor).Triggering? {
      t := EscapeNow(Next(s, ExecTriggerRefused).value, ExecFail);
      EscapeLater(s, ExecTriggerRefused, t);
    } else {
      t := EscapeNow(s, ExecFail);
    }
  }

  lemma EscapePolling(s: State, c: Consumer) returns (t: State)
    requires Inv(s) && Listed(s) && c in s.consumers
    requires PcOf(s, c).Idle? || PcOf(s, c).HasId? || (s.run.hasJobId && PcOf(s, c).Waiting?)
    ensures Escape(s, t)
  {
    if PcOf(s, c).Idle? {
      t := EscapeIdle(s, c);
    } else {
      var ev := if PcOf(s, c).HasId? then ExecStoreId else ViewerPoll(c.n);
      InvStep(s, ev);
      t := EscapeIdle(Next(s, ev).value, c);
      EscapeLater(s, ev, t);
    }
  }

  lemma EscapeUnlessQuiet(s: State) returns (t: State)
    requires Inv(s) && !Quiet(s)
    ensures Escape(s, t)
  {
    if PcOf(s, Executor).Preparing? || PcOf(s, Executor).Triggering? || PcOf(s, Executor).Failing? {
      t := EscapeStart(s);
    } else if c :| c in s.consumers && s.consumers[c].Got? {
      t := EscapeNow(s, RecordDone(c));
    } else if c :| c in s.consumers && s.consumers[c].SawDone? {
      t := EscapeSawDone(s, c);
    } else if c :| c in s.consumers && s.consumers[c].Held? {
      t := EscapeHeld(s, c);
    } else if r :| r in s.recoveries && !s.recoveries[r].Over? {
      t := RecoveryOverwrites(s, r);
    } else {
      var c :| c in s.consumers
        && (PcOf(s, c).Idle? || PcOf(s, c).HasId? || (s.run.hasJobId && PcOf(s, c).Waiting?));
      t := EscapePolling(s, c);
    }
  }

  /** A cancelled run stays cancelled in every continuation exactly when nothing in flight can still write. */
  lemma CancellationIsFinal(s: State)
    requires Reachable(s) && s.run.status.Cancelled?
    ensures Quiet(s) <==> forall t :: Reaches(s, t) ==> t.run.status.Cancelled?
  {
    SuccessIsReal(s);
    if Quiet(s) {
      forall t | Reaches(s, t) ensures t.run.status.Cancelled? {
        var evs :| After(s, evs) == Some(t);
        QuietAfter(s, evs);
      }
    } else {
      var t := EscapeUnlessQuiet(s);
    }
  }
}
