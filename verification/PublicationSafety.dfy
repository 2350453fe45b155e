/** Safety of publication over every history of sessions, crashes and late or lost requests. */
module PublicationSafety {
  import opened Basics
  import opened Backlog
  import opened Operations
  import opened DiffOrder
  import opened Publication

  function StateOf(run: Run, i: nat): OpState
    requires i < |run.ops| && run.ops[i].id in run.states
  {
    run.states[run.ops[i].id]
  }

  ghost predicate Recorded(job: Job, run: Run) {
    run.ops == job.ops && run.states.Keys == (set op | op in job.ops :: op.id)
  }

  /** Applied operations, then at most one that is under way, then planned ones. */
  ghost predicate Shape(run: Run, k: nat) {
    && k <= |run.ops|
    && (forall i :: 0 <= i < |run.ops| ==> run.ops[i].id in run.states)
    && (forall i :: 0 <= i < k ==> StateOf(run, i) == Applied)
    && (k < |run.ops| ==> StateOf(run, k) != Applied)
    && (forall i :: k < i < |run.ops| ==> StateOf(run, i) == OpState.Planned)
  }

  /** Operation `k` may have landed although the journal does not know it yet. */
  ghost predicate Unsure(run: Run, k: nat)
    requires Shape(run, k)
  {
    k < |run.ops| && StateOf(run, k) != OpState.Planned
  }

  /** An operation that is no longer planned passed the publisher's check in the world it belongs to. */
  ghost predicate Checked(job: Job, s: System, k: nat)
    requires s.run.Some? && Recorded(job, s.run.value) && Shape(s.run.value, k)
  {
    Unsure(s.run.value, k) ==> PublisherCheck(job.ops[k], After(job.start, job.ops, k))
  }

  /** The world is the fold of the applied operations, or of one more that is under way. */
  ghost predicate WorldAt(job: Job, s: System, k: nat)
    requires s.run.Some? && Recorded(job, s.run.value) && Shape(s.run.value, k)
  {
    || s.world == After(job.start, job.ops, k)
    || (Unsure(s.run.value, k) && s.world == After(job.start, job.ops, k + 1))
  }

  /** Whether the effect of `k` is not in the world, or re-stating it is harmless. */
  ghost predicate Repeatable(job: Job, s: System, k: nat)
    requires k < |job.ops|
  {
    s.world == After(job.start, job.ops, k) || ChangesStatus(job.ops[k].action)
  }

  /** A request for operation `k` may be travelling: the operation is unanswered, or re-states a status. */
  ghost predicate Underway(job: Job, s: System, k: nat)
    requires s.run.Some? && Recorded(job, s.run.value) && Shape(s.run.value, k) && k < |job.ops|
  {
    || StateOf(s.run.value, k) in {Intent, Ambiguous}
    || (StateOf(s.run.value, k) == Retryable && ChangesStatus(job.ops[k].action))
  }

  ghost predicate RequestsAt(job: Job, s: System, k: nat)
    requires s.run.Some? && Recorded(job, s.run.value) && Shape(s.run.value, k)
  {
    forall m | m in s.inflight ::
      && m <= k && m < |job.ops| && !job.ops[m].action.RecordAudit?
      && (m < k ==> ChangesStatus(job.ops[m].action))
      && (m == k ==> Underway(job, s, k) && Repeatable(job, s, k))
      && (!ChangesStatus(job.ops[m].action) ==>
            s.inflight[m] == 1 && m !in s.commits && PublisherCheck(job.ops[m], s.world))
  }

  ghost predicate CommitsAt(job: Job, s: System, k: nat)
    requires s.run.Some? && Recorded(job, s.run.value) && Shape(s.run.value, k)
  {
    && (forall m | m in s.commits ::
          && m < |job.ops| && m <= k
          && (m == k ==> Unsure(s.run.value, k) && s.world == After(job.start, job.ops, k + 1)))
    && InOrder(job, s.commits)
  }

  /** Apart from re-stated statuses, commits follow the recorded order and none repeats. */
  ghost predicate InOrder(job: Job, commits: seq<nat>) {
    forall a, b :: 0 <= a < b < |commits| && commits[b] < |job.ops| && !ChangesStatus(job.ops[commits[b]].action) ==>
      commits[a] < commits[b]
  }

  ghost predicate PhaseAt(job: Job, s: System, k: nat)
    requires s.run.Some? && Recorded(job, s.run.value) && Shape(s.run.value, k)
  {
    match s.phase
    case Idle => true
    case Scanning(i) => i <= k
    case Intended(i) =>
      && i == k && k < |job.ops| && StateOf(s.run.value, k) == Intent
      && (k in s.inflight ==> ChangesStatus(job.ops[k].action))
      && PublisherCheck(job.ops[k], s.world)
      && (Repeatable(job, s, k) || job.ops[k].action.RecordAudit?)
    case Sent(i) => i == k && k < |job.ops| && StateOf(s.run.value, k) == Intent
  }

  ghost predicate InvAt(job: Job, s: System, k: nat) {
    && s.run.Some? && Recorded(job, s.run.value)
    && Shape(s.run.value, k)
    && Checked(job, s, k)
    && WorldAt(job, s, k)
    && RequestsAt(job, s, k)
    && CommitsAt(job, s, k)
    && PhaseAt(job, s, k)
    && (s.run.value.status == Completed ==> k == |job.ops|)
    && s.run.value.status != Failed
  }

  ghost predicate Inv(job: Job, s: System) {
    s == Initial(job) || exists k :: InvAt(job, s, k)
  }

  // ----- facts about the recorded operations -----

  /** The status of an identity once an operation of the list has set it. */
  ghost predicate StatusHeld(op: Operation, w: World) {
    ChangesStatus(op.action) ==>
      op.identity !in w.packages
      || w.packages[op.identity].status == (if op.action.ReactivateWorkPackage? then Ready else Superseded)
  }

  lemma HeldIsHarmless(op: Operation, w: World)
    requires ChangesStatus(op.action) && StatusHeld(op, w)
    ensures Effect(op, w) == w
  {
    if op.identity in w.packages {
      assert w.packages[op.identity := w.packages[op.identity]] == w.packages;
    }
  }

  lemma HeldKept(earlier: Operation, later: Operation, w: World)
    requires StatusHeld(earlier, w) && Follows(earlier, later)
    ensures StatusHeld(earlier, Effect(later, w))
  {
  }

  /** No later operation disturbs a status, so the request that set it may land again any time. */
  lemma {:induction false} Harmless(job: Job, m: nat, j: nat)
    requires Publishable(job) && m < j <= |job.ops| && ChangesStatus(job.ops[m].action)
    ensures StatusHeld(job.ops[m], After(job.start, job.ops, j))
    ensures Effect(job.ops[m], After(job.start, job.ops, j)) == After(job.start, job.ops, j)
    decreases j
  {
    AfterStep(job.start, job.ops, j - 1);
    if m < j - 1 {
      Harmless(job, m, j - 1);
      HeldKept(job.ops[m], job.ops[j - 1], After(job.start, job.ops, j - 1));
    }
    HeldIsHarmless(job.ops[m], After(job.start, job.ops, j));
  }

  lemma MarkStates(job: Job, s: System, i: nat, state: OpState, t: System)
    requires Publishable(job) && s.run.Some? && Recorded(job, s.run.value) && i < |job.ops|
    requires t.run == Some(Mark(s.run.value, job.ops[i], state))
    ensures Recorded(job, t.run.value)
    ensures forall j :: 0 <= j < |job.ops| ==>
      job.ops[j].id in s.run.value.states && job.ops[j].id in t.run.value.states
      && StateOf(t.run.value, j) == if j == i then state else StateOf(s.run.value, j)
  {
    forall j | 0 <= j < |job.ops|
      ensures job.ops[j].id in s.run.value.states && job.ops[j].id in t.run.value.states
              && StateOf(t.run.value, j) == if j == i then state else StateOf(s.run.value, j)
    {
      assert job.ops[j] in job.ops;
      if j < i { assert job.ops[j].id != job.ops[i].id; }
      if i < j { assert job.ops[i].id != job.ops[j].id; }
    }
    assert job.ops[i] in job.ops;
  }

  // ----- every step keeps the invariant -----

  lemma BeginKeeps(job: Job, s: System, t: System)
    requires Publishable(job) && s == Initial(job) && Begin(job, s, t)
    ensures InvAt(job, t, 0)
  {
    hide Publishable, Effect, PublisherCheck;
    forall i | 0 <= i < |job.ops| ensures job.ops[i].id in t.run.value.states {
      assert job.ops[i] in job.ops;
    }
  }

  lemma PhaseOnlyKeeps(job: Job, s: System, t: System, k: nat)
    requires InvAt(job, s, k)
    requires t == s.(phase := t.phase)
    requires t.phase.Idle? || (t.phase.Scanning? && t.phase.next <= k)
    ensures InvAt(job, t, k)
  {
    hide Fold, Effect, PublisherCheck, InOrder;
    assert WorldAt(job, t, k);
    assert RequestsAt(job, t, k);
    assert CommitsAt(job, t, k);
  }

  lemma SkipKeeps(job: Job, s: System, t: System, k: nat, i: nat)
    requires InvAt(job, s, k) && Skip(job, s, t, i)
    ensures InvAt(job, t, k)
  {
    hide Fold, Effect, PublisherCheck, InOrder, CommitsAt, RequestsAt, WorldAt;
    assert i < k;
    PhaseOnlyKeeps(job, s, t, k);
  }

  lemma FinalizeKeeps(job: Job, s: System, t: System, k: nat)
    requires InvAt(job, s, k) && Finalize(job, s, t)
    ensures InvAt(job, t, k)
  {
    hide Fold, Effect, PublisherCheck, InOrder;
    assert k == |job.ops|;
  }

  /** A journal write that leaves operation `k` under way. */
  lemma WriteKeeps(job: Job, s: System, t: System, k: nat, state: OpState, phase: Phase)
    requires Publishable(job) && InvAt(job, s, k) && Writes(job, s, t, k, state, phase)
    requires k < |job.ops| && state in {Intent, Ambiguous, Retryable}
    requires Unsure(s.run.value, k) || PublisherCheck(job.ops[k], s.world)
    requires k in s.inflight ==> state in {Intent, Ambiguous} || ChangesStatus(job.ops[k].action)
    requires phase.Idle?
      || (phase == Intended(k) && state == Intent && (k in s.inflight ==> ChangesStatus(job.ops[k].action))
          && PublisherCheck(job.ops[k], s.world)
          && (Repeatable(job, s, k) || job.ops[k].action.RecordAudit?))
    ensures InvAt(job, t, k)
  {
    hide Fold, Effect, PublisherCheck, InOrder, Publishable, Mark;
    MarkStates(job, s, k, state, t);
    assert t.run.value.status == s.run.value.status && t.run.value.ops == job.ops by { StatusUnchanged(s.run.value, job.ops[k], state); }
  }

  lemma StatusUnchanged(run: Run, op: Operation, state: OpState)
    ensures Mark(run, op, state).status == run.status && Mark(run, op, state).ops == run.ops
  {
  }

  /** Operation `k` is marked applied once its effect is certain. */
  lemma ApplyKeeps(job: Job, s: System, t: System, k: nat)
    requires Publishable(job) && InvAt(job, s, k) && k < |job.ops|
    requires Writes(job, s, t, k, Applied, Scanning(k + 1))
    requires s.world == After(job.start, job.ops, k + 1)
    requires k in s.inflight ==> ChangesStatus(job.ops[k].action)
    ensures InvAt(job, t, k + 1)
  {
    hide Fold, Effect, PublisherCheck, InOrder, Publishable, Mark;
    MarkStates(job, s, k, Applied, t);
    StatusUnchanged(s.run.value, job.ops[k], Applied);
    assert Shape(t.run.value, k + 1);
    assert WorldAt(job, t, k + 1);
    assert RequestsAt(job, t, k + 1);
    assert CommitsAt(job, t, k + 1);
  }

  /** The recovery gate never takes a missing effect for a landed one. */
  lemma GateIsCertain(job: Job, s: System, k: nat)
    requires Publishable(job) && InvAt(job, s, k) && Unsure(s.run.value, k)
    requires Postcondition(job.ops[k], s.world) == Landed
    ensures s.world == After(job.start, job.ops, k + 1)
    ensures k in s.inflight ==> ChangesStatus(job.ops[k].action)
  {
    assert GateExact(job, k);
    hide Fold, Effect, PublisherCheck, InOrder;
    assert !job.ops[k].action.RecordAudit?;
    hide Postcondition;
  }

  /** A session only works on the first operation that is not applied. */
  lemma ExaminesFrontier(job: Job, s: System, k: nat, i: nat)
    requires InvAt(job, s, k)
    requires s.phase == Intended(i) || s.phase == Sent(i)
      || Examines(job, s, i, OpState.Planned) || Examines(job, s, i, Retryable)
      || Examines(job, s, i, Intent) || Examines(job, s, i, Ambiguous)
    ensures i == k
  {
    hide Fold, Effect, PublisherCheck, InOrder, CommitsAt, RequestsAt, WorldAt;
    assert forall j :: 0 <= j < k ==> StateOf(s.run.value, j) == s.run.value.states[job.ops[j].id] == Applied;
  }

  /** An operation that may have landed is intended again only if re-stating it is harmless. */
  lemma IntendKeeps(job: Job, s: System, t: System, k: nat)
    requires Publishable(job) && InvAt(job, s, k) && Intend(job, s, t, k)
    ensures InvAt(job, t, k)
  {
    assert GateExact(job, k);
    hide Fold, Effect, PublisherCheck, Postcondition, InOrder, Publishable, Writes;
    WriteKeeps(job, s, t, k, Intent, Intended(k));
  }

  lemma AcknowledgeKeeps(job: Job, s: System, t: System, k: nat)
    requires Publishable(job) && InvAt(job, s, k) && Acknowledge(job, s, t, k)
    ensures InvAt(job, t, k + 1)
  {
    assert After(job.start, job.ops, k + 1) == After(job.start, job.ops, k) by {
      AfterStep(job.start, job.ops, k);
    }
    hide Fold, Effect, PublisherCheck, InOrder, Writes;
    ApplyKeeps(job, s, t, k);
  }

  lemma SendKeeps(job: Job, s: System, t: System, k: nat)
    requires Publishable(job) && InvAt(job, s, k) && Send(job, s, t, k)
    ensures InvAt(job, t, k)
  {
    assert GateExact(job, k);
    hide Fold, Effect, PublisherCheck, AdapterAccepts, Postcondition, InOrder, Publishable;
    assert WorldAt(job, t, k);
    assert RequestsAt(job, t, k);
    assert CommitsAt(job, t, k);
  }

  lemma DropKeeps(job: Job, s: System, t: System, k: nat, m: nat)
    requires InvAt(job, s, k) && Drop(s, t, m)
    ensures InvAt(job, t, k)
  {
    hide Fold, Effect, PublisherCheck, InOrder;
    assert WorldAt(job, t, k);
    assert RequestsAt(job, t, k);
    assert CommitsAt(job, t, k);
  }

  lemma LateLandHarmless(job: Job, s: System, k: nat, m: nat)
    requires Publishable(job) && InvAt(job, s, k) && m in s.inflight && m < k
    ensures m < |job.ops| && ChangesStatus(job.ops[m].action) && Effect(job.ops[m], s.world) == s.world
  {
    Harmless(job, m, k);
    if k < |job.ops| {
      Harmless(job, m, k + 1);
    }
    hide Fold, Effect, PublisherCheck, Publishable, CommitsAt;
  }

  /** A request for an operation that is applied already changes nothing when it lands. */
  lemma LateLandKeeps(job: Job, s: System, t: System, k: nat, m: nat)
    requires Publishable(job) && InvAt(job, s, k) && Land(job, s, t, m) && m < k
    ensures InvAt(job, t, k) && t.world == s.world
  {
    LateLandHarmless(job, s, k, m);
    hide Fold, Effect, PublisherCheck, Publishable, GateExact;
    hide RequestsAt, CommitsAt;
    LateRequests(job, s, t, k, m);
    LateCommits(job, s, t, k, m);
    assert WorldAt(job, t, k);
  }

  lemma LateRequests(job: Job, s: System, t: System, k: nat, m: nat)
    requires InvAt(job, s, k) && m in s.inflight && m < |job.ops| && ChangesStatus(job.ops[m].action)
    requires t == s.(inflight := s.inflight - multiset{m}, commits := s.commits + [m])
    ensures RequestsAt(job, t, k)
  {
    hide Fold, Effect, PublisherCheck, CommitsAt, WorldAt;
  }

  lemma LateCommits(job: Job, s: System, t: System, k: nat, m: nat)
    requires InvAt(job, s, k) && m < k && m < |job.ops| && ChangesStatus(job.ops[m].action)
    requires t == s.(inflight := t.inflight, commits := s.commits + [m])
    ensures CommitsAt(job, t, k)
  {
    hide Fold, Effect, PublisherCheck, RequestsAt;
  }

  lemma LandEffect(job: Job, s: System, k: nat)
    requires Publishable(job) && InvAt(job, s, k) && k in s.inflight
    ensures k < |job.ops| && Effect(job.ops[k], s.world) == After(job.start, job.ops, k + 1)
  {
    AfterStep(job.start, job.ops, k);
    if s.world != After(job.start, job.ops, k) {
      Harmless(job, k, k + 1);
    }
  }

  lemma LandKeeps(job: Job, s: System, t: System, k: nat)
    requires Publishable(job) && InvAt(job, s, k) && Land(job, s, t, k)
    ensures InvAt(job, t, k)
  {
    LandEffect(job, s, k);
    hide Fold, Effect, PublisherCheck, Publishable;
    assert t.world == After(job.start, job.ops, k + 1);
    LandRequests(job, s, t, k);
    LandCommits(job, s, t, k);
    LandPhase(job, s, t, k);
    hide RequestsAt, CommitsAt, PhaseAt;
  }

  lemma LandPhase(job: Job, s: System, t: System, k: nat)
    requires Publishable(job) && InvAt(job, s, k) && k in s.inflight && k < |job.ops|
    requires t == s.(world := After(job.start, job.ops, k + 1), inflight := t.inflight, commits := t.commits)
    requires t.inflight <= s.inflight
    ensures PhaseAt(job, t, k) && WorldAt(job, t, k)
  {
    assert GateExact(job, k);
    hide Fold, Effect, PublisherCheck, Postcondition, Publishable, CommitsAt;
  }

  lemma LandRequests(job: Job, s: System, t: System, k: nat)
    requires Publishable(job) && InvAt(job, s, k) && k in s.inflight && k < |job.ops|
    requires t == s.(world := After(job.start, job.ops, k + 1), inflight := s.inflight - multiset{k}, commits := s.commits + [k])
    ensures RequestsAt(job, t, k)
  {
    hide Fold, Effect, PublisherCheck, Publishable, CommitsAt, WorldAt;
  }

  lemma LandCommits(job: Job, s: System, t: System, k: nat)
    requires InvAt(job, s, k) && k in s.inflight && k < |job.ops|
    requires t == s.(world := After(job.start, job.ops, k + 1), inflight := t.inflight, commits := s.commits + [k])
    ensures CommitsAt(job, t, k)
  {
    hide Fold, Effect, PublisherCheck;
    forall a | 0 <= a < |s.commits| && !ChangesStatus(job.ops[k].action) ensures s.commits[a] < k {
      assert s.commits[a] in s.commits;
    }
  }

  lemma StepKeeps(job: Job, s: System, t: System, k: nat, i: nat)
    requires Publishable(job) && InvAt(job, s, k) && StepAt(job, s, t, i)
    ensures InvAt(job, t, k) || InvAt(job, t, k + 1)
  {
    if Land(job, s, t, i) {
      hide Effect, Fold, PublisherCheck, Publishable;
      assert i <= k;
      if i < k { LateLandKeeps(job, s, t, k, i); } else { LandKeeps(job, s, t, k); }
    } else if Drop(s, t, i) {
      DropKeeps(job, s, t, k, i);
    } else if Skip(job, s, t, i) {
      SkipKeeps(job, s, t, k, i);
    } else {
      SessionStepKeeps(job, s, t, k, i);
    }
  }

  lemma SessionStepKeeps(job: Job, s: System, t: System, k: nat, i: nat)
    requires Publishable(job) && InvAt(job, s, k) && StepAt(job, s, t, i)
    requires !Land(job, s, t, i) && !Drop(s, t, i) && !Skip(job, s, t, i)
    ensures InvAt(job, t, k) || InvAt(job, t, k + 1)
  {
    hide Effect, Fold, PublisherCheck, AdapterAccepts, Postcondition, Publishable, Writes, CommitsAt, InOrder;
    ExaminesFrontier(job, s, k, i);
    if Recover(job, s, t, k) || ReplyOk(job, s, t, k) {
      GateIsCertain(job, s, k);
      ApplyKeeps(job, s, t, k);
    } else if Acknowledge(job, s, t, k) {
      AcknowledgeKeeps(job, s, t, k);
    } else if Send(job, s, t, k) {
      SendKeeps(job, s, t, k);
    } else if Intend(job, s, t, k) {
      IntendKeeps(job, s, t, k);
    } else if StayAmbiguous(job, s, t, k) || ReplyAmbiguous(job, s, t, k) {
      WriteKeeps(job, s, t, k, Ambiguous, Idle);
    } else {
      if Postcondition(job.ops[k], s.world) == Landed {
        GateIsCertain(job, s, k);
      }
      WriteKeeps(job, s, t, k, Retryable, Idle);
    }
  }

  lemma NextKeeps(job: Job, s: System, t: System)
    requires Publishable(job) && Inv(job, s) && Next(job, s, t)
    ensures Inv(job, t)
  {
    hide InvAt, StepAt, Publishable;
    if s == Publication.Initial(job) {
      FromInitial(job, s, t);
    } else {
      var k: nat :| InvAt(job, s, k);
      if Crash(s, t) || Resume(s, t) {
        PhaseOnlyKeeps(job, s, t, k);
      } else if Finalize(job, s, t) {
        FinalizeKeeps(job, s, t, k);
      } else if Begin(job, s, t) {
        NeverBegins(job, s, t, k);
      } else {
        var i: nat :| StepAt(job, s, t, i);
        StepKeeps(job, s, t, k, i);
      }
    }
  }

  lemma NeverBegins(job: Job, s: System, t: System, k: nat)
    requires InvAt(job, s, k)
    ensures !Begin(job, s, t)
  {
  }

  lemma FromInitial(job: Job, s: System, t: System)
    requires Publishable(job) && s == Publication.Initial(job) && Next(job, s, t)
    ensures Inv(job, t)
  {
    hide Publishable, InvAt, Effect, PublisherCheck, AdapterAccepts, Postcondition;
    if Begin(job, s, t) {
      BeginKeeps(job, s, t);
    } else {
      assert t == s;
    }
  }
}
