/**
  Publication of one recorded operation list as a transition system: the publisher's durable
  journal writes, requests travelling to the store, replies, and crashes at any point.
  A request that was sent may land at any later time, in any later session, or never.
 */
module Publication {
  import opened Basics
  import opened Operations
  import opened DiffSoundness
  import opened DiffOrder

  datatype OpState = Planned | Intent | Ambiguous | Retryable | Applied

  datatype RunStatus = InProgress | Completed | Failed

  datatype Run = Run(ops: seq<Operation>, states: map<OperationId, OpState>, status: RunStatus)

  /** Where the session holding the publication fence stands. `Idle`: no session. */
  datatype Phase = Idle | Scanning(next: nat) | Intended(at: nat) | Sent(at: nat)

  /** `inflight`: requests still travelling, counted. `commits`: the history of effects the store has run. */
  datatype System = System(
    world: World,
    inflight: multiset<nat>,
    commits: seq<nat>,
    run: Option<Run>,
    phase: Phase)

  /** The store as first read, and the operations recorded for it. */
  datatype Job = Job(start: World, ops: seq<Operation>)

  function FreshRun(ops: seq<Operation>): Run {
    Run(ops, map op | op in ops :: op.id := Planned, InProgress)
  }

  function Mark(run: Run, op: Operation, state: OpState): Run {
    run.(states := run.states[op.id := state])
  }

  function Initial(job: Job): System {
    System(job.start, multiset{}, [], None, Idle)
  }

  // ----- steps -----

  ghost predicate Begin(job: Job, s: System, t: System) {
    s.run.None? && s.phase.Idle? && s.world == job.start
    && t == s.(run := Some(FreshRun(job.ops)), phase := Scanning(0))
  }

  ghost predicate Resume(s: System, t: System) {
    s.run.Some? && s.phase.Idle? && t == s.(phase := Scanning(0))
  }

  /** The session is about to examine operation `i`, which is in state `state`. */
  ghost predicate Examines(job: Job, s: System, i: nat, state: OpState) {
    && s.run.Some? && s.phase == Scanning(i) && i < |job.ops|
    && job.ops[i].id in s.run.value.states && s.run.value.states[job.ops[i].id] == state
  }

  /** Operation `i` takes `state` in the journal and the session moves on to `phase`. */
  ghost predicate Writes(job: Job, s: System, t: System, i: nat, state: OpState, phase: Phase) {
    s.run.Some? && i < |job.ops|
    && t == s.(run := Some(Mark(s.run.value, job.ops[i], state)), phase := phase)
  }

  ghost predicate Skip(job: Job, s: System, t: System, i: nat) {
    Examines(job, s, i, Applied) && t == s.(phase := Scanning(i + 1))
  }

  ghost predicate Recover(job: Job, s: System, t: System, i: nat) {
    && (Examines(job, s, i, Intent) || Examines(job, s, i, Ambiguous))
    && Postcondition(job.ops[i], s.world) == Landed
    && Writes(job, s, t, i, Applied, Scanning(i + 1))
  }

  ghost predicate StayAmbiguous(job: Job, s: System, t: System, i: nat) {
    && (Examines(job, s, i, Intent) || Examines(job, s, i, Ambiguous))
    && Postcondition(job.ops[i], s.world) == NotLanded
    && Writes(job, s, t, i, Ambiguous, Idle)
  }

  ghost predicate Intend(job: Job, s: System, t: System, i: nat) {
    && (Examines(job, s, i, Planned) || Examines(job, s, i, Retryable))
    && PublisherCheck(job.ops[i], s.world)
    && Writes(job, s, t, i, Intent, Intended(i))
  }

  /** An audit record is acknowledged by the adapter itself; nothing is sent. */
  ghost predicate Acknowledge(job: Job, s: System, t: System, i: nat) {
    && s.phase == Intended(i) && i < |job.ops| && job.ops[i].action.RecordAudit?
    && Writes(job, s, t, i, Applied, Scanning(i + 1))
  }

  ghost predicate FailBeforeSend(job: Job, s: System, t: System, i: nat) {
    s.phase == Intended(i) && Writes(job, s, t, i, Retryable, Idle)
  }

  ghost predicate Send(job: Job, s: System, t: System, i: nat) {
    && s.phase == Intended(i) && i < |job.ops| && !job.ops[i].action.RecordAudit?
    && AdapterAccepts(job.ops[i], s.world)
    && t == s.(inflight := s.inflight + multiset{i}, phase := Sent(i))
  }

  ghost predicate Land(job: Job, s: System, t: System, m: nat) {
    && m in s.inflight && m < |job.ops|
    && t == s.(world := Effect(job.ops[m], s.world), inflight := s.inflight - multiset{m}, commits := s.commits + [m])
  }

  ghost predicate Drop(s: System, t: System, m: nat) {
    m in s.inflight && t == s.(inflight := s.inflight - multiset{m})
  }

  /** The adapter returns normally only after it saw the exact postcondition. */
  ghost predicate ReplyOk(job: Job, s: System, t: System, i: nat) {
    && s.phase == Sent(i) && i < |job.ops| && Postcondition(job.ops[i], s.world) == Landed
    && Writes(job, s, t, i, Applied, Scanning(i + 1))
  }

  /**
    A plain error. Either the request was answered and travels no more, landed or not, or its
    answer was lost, the postcondition held all the same, and a later read failed.
   */
  ghost predicate ReplyPlain(job: Job, s: System, t: System, i: nat) {
    && s.phase == Sent(i) && i < |job.ops|
    && (i !in s.inflight || Postcondition(job.ops[i], s.world) == Landed)
    && Writes(job, s, t, i, Retryable, Idle)
  }

  ghost predicate ReplyAmbiguous(job: Job, s: System, t: System, i: nat) {
    s.phase == Sent(i) && Writes(job, s, t, i, Ambiguous, Idle)
  }

  ghost predicate AllApplied(run: Run) {
    forall id | id in run.states :: run.states[id] == Applied
  }

  ghost predicate Finalize(job: Job, s: System, t: System) {
    && s.run.Some? && s.phase == Scanning(|job.ops|) && AllApplied(s.run.value)
    && t == s.(run := Some(s.run.value.(status := Completed)), phase := Idle)
  }

  /** The session dies, or stops with an error that writes nothing. */
  ghost predicate Crash(s: System, t: System) {
    t == s.(phase := Idle)
  }

  ghost predicate StepAt(job: Job, s: System, t: System, i: nat) {
    || Skip(job, s, t, i) || Recover(job, s, t, i) || StayAmbiguous(job, s, t, i) || Intend(job, s, t, i)
    || Acknowledge(job, s, t, i) || FailBeforeSend(job, s, t, i) || Send(job, s, t, i)
    || Land(job, s, t, i) || Drop(s, t, i)
    || ReplyOk(job, s, t, i) || ReplyPlain(job, s, t, i) || ReplyAmbiguous(job, s, t, i)
  }

  ghost predicate Next(job: Job, s: System, t: System) {
    Begin(job, s, t) || Resume(s, t) || Finalize(job, s, t) || Crash(s, t) || exists i :: StepAt(job, s, t, i)
  }

  /** Any number of publish sessions, interleaved with the network in any way. */
  ghost predicate Trace(job: Job, trace: seq<System>) {
    trace != [] && forall i :: 0 <= i < |trace| - 1 ==> Next(job, trace[i], trace[i + 1])
  }

  ghost predicate History(job: Job, trace: seq<System>) {
    Trace(job, trace) && trace[0] == Initial(job)
  }

  // ----- what the recorded list must satisfy -----

  /** Proved of every diff by `DiffIsPublishable`. */
  ghost predicate Publishable(job: Job) {
    && Pairwise(job.ops)
    && DistinctIds(job.ops)
    && forall i :: 0 <= i < |job.ops| ==> GateExact(job, i)
  }

  ghost predicate GateExact(job: Job, i: nat)
    requires i < |job.ops|
  {
    var op, before, after := job.ops[i], After(job.start, job.ops, i), After(job.start, job.ops, i + 1);
    && after == Effect(op, before)
    && (PublisherCheck(op, before) ==>
          && (!op.action.RecordAudit? ==> Postcondition(op, before) == NotLanded && Postcondition(op, after) == Landed)
          && (PublisherCheck(op, after) <==> ChangesStatus(op.action) || op.action.RecordAudit?))
  }

}
