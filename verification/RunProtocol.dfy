/** One playbook run: its database row, the sidecar's job, and everyone who acts on them.

    Each database session block and each sidecar statement that other threads can observe is one step.  The
    executor and the viewers poll the sidecar, recovery probes it, cancel requests remove the job. */
module RunProtocol {
  import opened Prelude

  datatype Status = Pending | Running | Success | Failed | Cancelled

  datatype Run = Run(status: Status, exitCode: Option<int>, hasJobId: bool, finished: bool)

  predicate Terminal(status: Status) { status.Success? || status.Failed? || status.Cancelled? }

  // ----- What the session blocks do to the row -----

  function Verdict(code: Option<int>): Status { if code == Some(0) then Success else Failed }

  function RecordedRun(run: Run, code: Option<int>): Run {
    run.(status := Verdict(code), exitCode := code, finished := true)
  }

  function MarkedFailed(run: Run): Run { run.(status := Failed, finished := true) }

  function MarkedIfOpen(run: Run): Run { if Terminal(run.status) then run else MarkedFailed(run) }

  function CancelledRun(run: Run): Run { run.(status := Cancelled, finished := true) }

  // ----- The sidecar's job -----

  datatype WaitPc = Blocked | CodeSet | Finished

  /** listed: still in the table; returned: what the process really returned; done and exitCode: the fields the
      sidecar reports; files: the output and temporary files exist; swept: the cleanup thread took it out. */
  datatype Job = Job(listed: bool, returned: Option<int>, done: bool, exitCode: Option<int>, files: bool,
                     swept: bool, wait: WaitPc)

  const NEW_JOB := Job(true, None, false, None, true, false, Blocked)

  // ----- Program counters -----

  datatype Consumer = Executor | Viewer(n: nat)

  datatype Pc =
    | Preparing | Triggering | HasId | Failing                       // the executor before it streams
    | Waiting                                                        // a viewer without a job id yet
    | Idle | Held | SawDone | Got(code: Option<int>) | Gone          // polling the sidecar
    | Stopped

  datatype RecoverPc = Probing | Marking | Over

  datatype HandlerPc = NoCall | Called | Popped | Terminating | SettingCode | Unlinking | Answered

  datatype Canceller = Canceller(wrote: bool, handler: HandlerPc)

  datatype State = State(run: Run, job: Option<Job>, consumers: map<Consumer, Pc>,
                         recoveries: map<nat, RecoverPc>, cancels: map<nat, Canceller>)

  datatype Event =
    | ExecBegin | ExecTrigger | ExecTriggerLost | ExecTriggerRefused | ExecStoreId | ExecFail
    | ProcessExit(code: int) | WaitCode | WaitDone | CleanupPop | CleanupUnlink
    | ViewerStart(v: nat) | ViewerPoll(v: nat) | ViewerTimeout(v: nat)
    | PollLookup(c: Consumer) | PollStatus(c: Consumer) | PollCode(c: Consumer) | PollLost(c: Consumer)
    | RecordDone(c: Consumer) | Orphaned(c: Consumer)
    | RecoverRead(r: nat) | RecoverProbe(r: nat) | RecoverLost(r: nat) | RecoverWrite(r: nat)
    | CancelRead(k: nat) | CancelPop(k: nat) | CancelCheck(k: nat) | CancelSetDone(k: nat) | CancelSetCode(k: nat)
    | CancelUnlink(k: nat) | CancelWrite(k: nat)

  const START := State(Run(Pending, None, false, false), None, map[Executor := Preparing], map[], map[])

  function PcOf(s: State, c: Consumer): Pc { if c in s.consumers then s.consumers[c] else Stopped }

  function Move(s: State, c: Consumer, pc: Pc): State { s.(consumers := s.consumers[c := pc]) }

  function Listed(s: State): bool { s.job.Some? && s.job.value.listed }

  /** The table lock is free: the waiting thread holds it between its two assignments. */
  predicate LockFree(s: State) { s.job.None? || !s.job.value.wait.CodeSet? }

  function SetJob(s: State, job: Job): State { s.(job := Some(job)) }

  // ----- Steps: the new state, or None when the step cannot be taken -----

  function ExecutorStep(s: State, ev: Event): Option<State> {
    var pc := PcOf(s, Executor);
    match ev
    case ExecBegin => if pc.Preparing? then Some(Move(s, Executor, Triggering).(run := s.run.(status := Running))) else None
    case ExecTrigger => if pc.Triggering? then Some(SetJob(Move(s, Executor, HasId), NEW_JOB)) else None
    case ExecTriggerLost => if pc.Triggering? then Some(SetJob(Move(s, Executor, Failing), NEW_JOB)) else None
    case ExecTriggerRefused => if pc.Triggering? then Some(Move(s, Executor, Failing)) else None
    case ExecStoreId => if pc.HasId? then Some(Move(s, Executor, Idle).(run := s.run.(hasJobId := true))) else None
    case ExecFail =>
      if pc.Preparing? || pc.Failing? then Some(Move(s, Executor, Stopped).(run := MarkedFailed(s.run))) else None
    case _ => None
  }

  function JobStep(s: State, ev: Event): Option<State> {
    if s.job.None? then None
    else
      var job := s.job.value;
      match ev
      case ProcessExit(code) => if job.returned.None? then Some(SetJob(s, job.(returned := Some(code)))) else None
      case WaitCode =>
        if job.returned.Some? && job.wait.Blocked?
        then Some(SetJob(s, job.(exitCode := job.returned, wait := CodeSet))) else None
      case WaitDone => if job.wait.CodeSet? then Some(SetJob(s, job.(done := true, wait := Finished))) else None
      case CleanupPop =>
        if job.wait.Finished? && job.listed && job.done
        then Some(SetJob(s, job.(listed := false, swept := true))) else None
      case CleanupUnlink => if job.swept then Some(SetJob(s, job.(files := false))) else None
      case _ => None
  }

  function ViewerStep(s: State, ev: Event): Option<State> {
    match ev
    case ViewerStart(v) =>
      if Viewer(v) in s.consumers || Terminal(s.run.status) then None
      else Some(Move(s, Viewer(v), if s.run.hasJobId then Idle else Waiting))
    case ViewerPoll(v) =>
      if !PcOf(s, Viewer(v)).Waiting? then None
      else if s.run.hasJobId then Some(Move(s, Viewer(v), Idle))
      else if Terminal(s.run.status) then Some(Move(s, Viewer(v), Stopped))
      else Some(s)
    case ViewerTimeout(v) =>
      if !PcOf(s, Viewer(v)).Waiting? then None
      else Some(Move(s, Viewer(v), Stopped).(run := MarkedIfOpen(s.run)))
    case _ => None
  }

  function PollStep(s: State, ev: Event): Option<State> {
    match ev
    case PollLookup(c) => if PcOf(s, c).Idle? && LockFree(s) then Some(Move(s, c, if Listed(s) then Held else Gone)) else None
    case PollStatus(c) =>
      if PcOf(s, c).Held? && s.job.Some? then Some(Move(s, c, if s.job.value.done then SawDone else Idle)) else None
    case PollCode(c) =>
      if PcOf(s, c).SawDone? && s.job.Some? then Some(Move(s, c, Got(s.job.value.exitCode))) else None
    case PollLost(c) => if PcOf(s, c).Held? || PcOf(s, c).SawDone? then Some(Move(s, c, Idle)) else None
    case RecordDone(c) =>
      if PcOf(s, c).Got? then Some(Move(s, c, Stopped).(run := RecordedRun(s.run, PcOf(s, c).code))) else None
    case Orphaned(c) =>
      if !PcOf(s, c).Gone? then None
      else Some(Move(s, c, Stopped).(run := if c.Executor? then s.run else MarkedIfOpen(s.run)))
    case _ => None
  }

  function RecoverStep(s: State, ev: Event): Option<State> {
    match ev
    case RecoverRead(r) =>
      if r in s.recoveries || Terminal(s.run.status) then None
      else Some(s.(recoveries := s.recoveries[r := if s.run.hasJobId then Probing else Marking]))
    case RecoverProbe(r) =>
      if r !in s.recoveries || !s.recoveries[r].Probing? || !LockFree(s) then None
      else Some(s.(recoveries := s.recoveries[r := if Listed(s) then Over else Marking]))
    case RecoverLost(r) =>
      if r !in s.recoveries || !s.recoveries[r].Probing? then None
      else Some(s.(recoveries := s.recoveries[r := Over]))
    case RecoverWrite(r) =>
      if r !in s.recoveries || !s.recoveries[r].Marking? then None
      else Some(s.(recoveries := s.recoveries[r := Over], run := MarkedFailed(s.run)))
    case _ => None
  }

  function SetHandler(s: State, k: nat, pc: HandlerPc): State
    requires k in s.cancels
  {
    s.(cancels := s.cancels[k := s.cancels[k].(handler := pc)])
  }

  function CancelStep(s: State, ev: Event): Option<State> {
    match ev
    case CancelRead(k) =>
      if k in s.cancels || Terminal(s.run.status) then None
      else Some(s.(cancels := s.cancels[k := Canceller(false, if s.run.hasJobId then Called else NoCall)]))
    case CancelWrite(k) =>
      if k !in s.cancels || s.cancels[k].wrote then None
      else Some(s.(cancels := s.cancels[k := s.cancels[k].(wrote := true)], run := CancelledRun(s.run)))
    case _ => HandlerStep(s, ev)
  }

  function HandlerStep(s: State, ev: Event): Option<State> {
    if s.job.None? then None
    else
      var job := s.job.value;
      match ev
      case CancelPop(k) =>
        if k !in s.cancels || !s.cancels[k].handler.Called? || !LockFree(s) then None
        else if job.listed then Some(SetJob(SetHandler(s, k, Popped), job.(listed := false)))
        else Some(SetHandler(s, k, Answered))
      case CancelCheck(k) =>
        if k !in s.cancels || !s.cancels[k].handler.Popped? then None
        else Some(SetHandler(s, k, if job.done then Unlinking else Terminating))
      case CancelSetDone(k) =>
        if k !in s.cancels || !s.cancels[k].handler.Terminating? then None
        else Some(SetJob(SetHandler(s, k, SettingCode), job.(done := true)))
      case CancelSetCode(k) =>
        if k !in s.cancels || !s.cancels[k].handler.SettingCode? then None
        else Some(SetJob(SetHandler(s, k, Unlinking), job.(exitCode := Some(-1))))
      case CancelUnlink(k) =>
        if k !in s.cancels || !s.cancels[k].handler.Unlinking? then None
        else Some(SetJob(SetHandler(s, k, Answered), job.(files := false)))
      case _ => None
  }

  // Who takes a step; the remaining steps are those of a cancel request and its handler.

  predicate ByExecutor(ev: Event) {
    ev.ExecBegin? || ev.ExecTrigger? || ev.ExecTriggerLost? || ev.ExecTriggerRefused? || ev.ExecStoreId? || ev.ExecFail?
  }

  predicate BySidecar(ev: Event) {
    ev.ProcessExit? || ev.WaitCode? || ev.WaitDone? || ev.CleanupPop? || ev.CleanupUnlink?
  }

  predicate ByWaitingViewer(ev: Event) { ev.ViewerStart? || ev.ViewerPoll? || ev.ViewerTimeout? }

  predicate ByPoller(ev: Event) {
    ev.PollLookup? || ev.PollStatus? || ev.PollCode? || ev.PollLost? || ev.RecordDone? || ev.Orphaned?
  }

  predicate ByRecovery(ev: Event) { ev.RecoverRead? || ev.RecoverProbe? || ev.RecoverLost? || ev.RecoverWrite? }

  function Next(s: State, ev: Event): Option<State> {
    if ByExecutor(ev) then ExecutorStep(s, ev)
    else if BySidecar(ev) then JobStep(s, ev)
    else if ByWaitingViewer(ev) then ViewerStep(s, ev)
    else if ByPoller(ev) then PollStep(s, ev)
    else if ByRecovery(ev) then RecoverStep(s, ev)
    else CancelStep(s, ev)
  }

  /** Where a sequence of steps leads, or None when some step cannot be taken. */
  function After(s: State, evs: seq<Event>): Option<State> {
    if evs == [] then Some(s)
    else
      var mid := After(s, Init(evs));
      if mid.None? then None else Next(mid.value, Last(evs))
  }

  ghost predicate Reaches(s: State, t: State) {
    exists evs :: After(s, evs) == Some(t)
  }

  ghost predicate Reachable(s: State) {
    Reaches(START, s)
  }

  lemma OneStep(s: State, ev: Event)
    requires Next(s, ev).Some?
    ensures Reaches(s, Next(s, ev).value)
  {
    assert Init([ev]) == [] && After(s, []) == Some(s);
    assert After(s, [ev]) == Next(s, ev);
  }

  lemma ReachesTransitive(s: State, t: State, u: State)
    requires Reaches(s, t) && Reaches(t, u)
    ensures Reaches(s, u)
  {
    var first :| After(s, first) == Some(t);
    var second :| After(t, second) == Some(u);
    AfterAppend(s, first, second);
  }

  lemma {:induction false} AfterAppend(s: State, evs: seq<Event>, more: seq<Event>)
    requires After(s, evs).Some?
    ensures After(s, evs + more) == After(After(s, evs).value, more)
  {
    if more == [] {
      assert evs + more == evs;
    } else {
      assert Init(evs + more) == evs + Init(more) && Last(evs + more) == Last(more);
      AfterAppend(s, evs, Init(more));
    }
  }

  // ----- The invariant -----

  predicate Streaming(pc: Pc) { pc.Idle? || pc.Held? || pc.SawDone? || pc.Got? || pc.Gone? }

  predicate ViewerPc(pc: Pc) { Streaming(pc) || pc.Waiting? || pc.Stopped? }

  /** The handler has taken the job out of the table and is still busy with it. */
  predicate Removed(pc: HandlerPc) { pc.Popped? || pc.Terminating? || pc.SettingCode? || pc.Unlinking? }

  ghost predicate JobInv(s: State) {
    s.job.Some? ==>
      var job := s.job.value;
      && (job.exitCode == Some(0) ==> job.returned == Some(0))
      && (!job.wait.Blocked? ==> job.returned.Some?)
      && (job.wait.Finished? ==> job.done)
      && (job.listed ==> job.files && !job.swept)
      && forall k :: k in s.cancels && Removed(s.cancels[k].handler) ==> !job.listed
  }

  ghost predicate ConsumerInv(s: State) {
    && Executor in s.consumers
    && (PcOf(s, Executor).Preparing? || PcOf(s, Executor).Triggering? ==> s.job.None?)
    && (PcOf(s, Executor).HasId? ==> s.job.Some?)
    && (s.run.hasJobId ==> s.job.Some? && (Streaming(PcOf(s, Executor)) || PcOf(s, Executor).Stopped?))
    && (forall c :: c in s.consumers && Streaming(s.consumers[c]) ==> s.run.hasJobId)
    && (forall c :: c in s.consumers && s.consumers[c].Gone? ==> !Listed(s))
    && (forall c :: c in s.consumers && s.consumers[c] == Got(Some(0)) ==>
          s.job.Some? && s.job.value.returned == Some(0))
    && (forall c :: c in s.consumers && s.consumers[c].SawDone? ==> s.job.Some? && s.job.value.done)
    && (forall v :: Viewer(v) in s.consumers ==> ViewerPc(s.consumers[Viewer(v)]))
    && !PcOf(s, Executor).Waiting?
  }

  ghost predicate RunInv(s: State) {
    && (s.run.status.Success? ==>
          s.run.exitCode == Some(0) && s.run.hasJobId && s.job.Some? && s.job.value.returned == Some(0))
    && (Terminal(s.run.status) ==> s.run.finished)
    && (forall r :: r in s.recoveries && s.recoveries[r].Probing? ==> s.run.hasJobId)
    && (forall k :: k in s.cancels && !s.cancels[k].handler.NoCall? ==> s.run.hasJobId)
  }

  ghost predicate Inv(s: State) { JobInv(s) && ConsumerInv(s) && RunInv(s) }

  /** If the step can be taken, it leads from the invariant to the invariant. */
  ghost predicate Keeps(s: State, t: Option<State>) { Inv(s) && t.Some? ==> Inv(t.value) }

  lemma InvTrigger(s: State, ev: Event)
    ensures ev.ExecTrigger? || ev.ExecTriggerLost? ==> Keeps(s, ExecutorStep(s, ev))
  {
  }

  lemma InvExecutor(s: State, ev: Event)
    ensures Keeps(s, ExecutorStep(s, ev))
  {
    if ev.ExecTrigger? || ev.ExecTriggerLost? {
      InvTrigger(s, ev);
    }
  }

  lemma InvJob(s: State, ev: Event)
    ensures Keeps(s, JobStep(s, ev))
  {
  }

  lemma InvGivingUp(s: State, ev: Event)
    ensures ev.ViewerTimeout? ==> Keeps(s, ViewerStep(s, ev))
  {
  }

  lemma InvViewer(s: State, ev: Event)
    ensures Keeps(s, ViewerStep(s, ev))
  {
    if ev.ViewerTimeout? {
      InvGivingUp(s, ev);
    }
  }

  lemma InvVerdict(s: State, ev: Event)
    ensures ev.RecordDone? || ev.Orphaned? ==> Keeps(s, PollStep(s, ev))
  {
  }

  lemma InvPoll(s: State, ev: Event)
    ensures Keeps(s, PollStep(s, ev))
  {
    if ev.RecordDone? || ev.Orphaned? {
      InvVerdict(s, ev);
    }
  }

  lemma InvRecover(s: State, ev: Event)
    ensures Keeps(s, RecoverStep(s, ev))
  {
  }

  lemma InvHandler(s: State, ev: Event)
    ensures Keeps(s, HandlerStep(s, ev))
  {
  }

  lemma InvCancel(s: State, ev: Event)
    ensures Keeps(s, CancelStep(s, ev))
  {
    if !ev.CancelRead? && !ev.CancelWrite? {
      InvHandler(s, ev);
    }
  }

  lemma InvStep(s: State, ev: Event)
    ensures Keeps(s, Next(s, ev))
  {
    if ByExecutor(ev) {
      InvExecutor(s, ev);
    } else if BySidecar(ev) {
      InvJob(s, ev);
    } else if ByWaitingViewer(ev) {
      InvViewer(s, ev);
    } else if ByPoller(ev) {
      InvPoll(s, ev);
    } else if ByRecovery(ev) {
      InvRecover(s, ev);
    } else {
      InvCancel(s, ev);
    }
  }

  lemma {:induction false} InvAfter(s: State, evs: seq<Event>)
    requires Inv(s) && After(s, evs).Some?
    ensures Inv(After(s, evs).value)
  {
    if evs != [] {
      InvAfter(s, Init(evs));
      InvStep(After(s, Init(evs)).value, Last(evs));
    }
  }

  /** In every interleaving, cancels included: success is real, and a terminal run has its finishing time. */
  lemma SuccessIsReal(s: State)
    requires Reachable(s)
    ensures s.run.status.Success? ==>
      s.run.exitCode == Some(0) && s.run.hasJobId && s.job.Some? && s.job.value.returned == Some(0)
    ensures Terminal(s.run.status) ==> s.run.finished
    ensures Inv(s)
  {
    var evs :| After(START, evs) == Some(s);
    InvAfter(START, evs);
  }
}
