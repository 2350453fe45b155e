/** The main results about publication. */
module PublicationTheorems {
  import opened Basics
  import opened Backlog
  import opened Operations
  import opened PlanDiff
  import opened DiffSoundness
  import opened DiffTheorems
  import opened DiffOrder
  import opened Publication
  import opened PublicationSafety

  /** The job recorded by a fresh publication of `plan` against `snap`. */
  ghost function JobOf(plan: Plan, snap: Snapshot): Job {
    Job(Loaded(snap), Diff(plan, snap))
  }

  lemma DiffIsPublishable(plan: Plan, snap: Snapshot)
    requires WellReferenced(plan)
    ensures Publishable(JobOf(plan, snap))
  {
    hide Diff, Stale, Preempted, Postcondition, PublisherCheck, AdapterAccepts, Effect, Fold;
    var job := JobOf(plan, snap);
    DiffPairwise(plan, snap);
    DiffDistinctIds(plan, snap);
    DiffSound(plan, snap);
    forall i | 0 <= i < |job.ops| ensures GateExact(job, i) {
      assert Judged(snap, job.ops[i], After(job.start, job.ops, i));
      AfterStep(job.start, job.ops, i);
      if Preempted(job.ops[i], snap) {
        PreemptedIsStale(job.ops[i], snap);
      }
    }
  }

  // ----- safety over every history -----

  /** The invariant holds along every run that starts with it. */
  lemma {:induction false} TraceKeeps(job: Job, trace: seq<System>, i: nat)
    requires Publishable(job) && Trace(job, trace) && Inv(job, trace[0]) && i < |trace|
    ensures Inv(job, trace[i])
  {
    hide Publishable, Next, InvAt;
    if i > 0 {
      TraceKeeps(job, trace, i - 1);
      assert Next(job, trace[i - 1], trace[i]);
      NextKeeps(job, trace[i - 1], trace[i]);
    }
  }

  /** What an observer of the store and the journal can rely on. */
  ghost predicate Safe(job: Job, s: System) {
    && InOrder(job, s.commits)
    && (s.run.None? ==> s.world == job.start)
    && (s.run.Some? ==> exists k :: SafeAt(job, s.run.value, s.world, k))
    && (s.run.Some? && s.run.value.status == Completed ==> s.world == Fold(job.start, job.ops))
  }

  ghost predicate SafeAt(job: Job, run: Run, world: World, k: nat) {
    && Shape(run, k) && k <= |job.ops|
    && (world == After(job.start, job.ops, k)
        || (k < |job.ops| && Unsure(run, k) && world == After(job.start, job.ops, k + 1)))
  }

  /**
    After any number of sessions that crash, lose replies or fail anywhere, and with requests
    landing arbitrarily late, the store is the fold of the applied operations, or of one more
    that is under way; a completed publication is the fold of all of them.
   */
  lemma CrashSafety(job: Job, trace: seq<System>, i: nat)
    requires Publishable(job) && History(job, trace) && i < |trace|
    ensures Safe(job, trace[i])
  {
    TraceKeeps(job, trace, i);
    hide Publishable, History, Fold, PublisherCheck, RequestsAt;
    var s := trace[i];
    if s == Publication.Initial(job) {
    } else {
      var k: nat :| InvAt(job, s, k);
      assert SafeAt(job, s.run.value, s.world, k);
      if k == |job.ops| {
        assert job.ops[..k] == job.ops;
      }
    }
  }

  lemma CompletedKept(job: Job, s: System, t: System)
    requires Next(job, s, t) && s.run.Some? && s.run.value.status == Completed
    ensures t.run.Some? && t.run.value.status == Completed
  {
    hide PublisherCheck, AdapterAccepts, Postcondition, Effect;
  }

  /** Completion is final: no later session or late request changes the published result. */
  lemma {:induction false} CompletionIsFinal(job: Job, trace: seq<System>, i: nat, j: nat)
    requires Publishable(job) && History(job, trace) && i <= j < |trace|
    requires trace[i].run.Some? && trace[i].run.value.status == Completed
    ensures trace[j].run.Some? && trace[j].run.value.status == Completed
    ensures trace[j].world == Fold(job.start, job.ops)
    decreases j
  {
    hide Publishable, Next, Fold;
    if i < j {
      CompletionIsFinal(job, trace, i, j - 1);
      assert Next(job, trace[j - 1], trace[j]);
      CompletedKept(job, trace[j - 1], trace[j]);
    }
    CrashSafety(job, trace, j);
  }

  /** A completed publication of a plan leaves the store converged to that plan. */
  lemma CompletionConverges(plan: Plan, snap: Snapshot, trace: seq<System>, i: nat)
    requires WellReferenced(plan)
    requires History(JobOf(plan, snap), trace) && i < |trace|
    requires trace[i].run.Some? && trace[i].run.value.status == Completed
    ensures Converged(plan, trace[i].world.packages) && trace[i].world.duplicates == {}
    ensures forall id | id in snap.packages ::
      id in trace[i].world.packages && Preserved(plan, snap, id, trace[i].world.packages[id])
  {
    hide Converged, Preserved, History, Publishable, Diff, Fold;
    DiffIsPublishable(plan, snap);
    CrashSafety(JobOf(plan, snap), trace, i);
    DiffConverges(plan, snap, snap.digest);
  }

  // ----- operations that no later session can finish -----

  /** An audit record whose session died between the intent and the acknowledgement. */
  ghost predicate AuditLost(job: Job, s: System, k: nat) {
    && k < |job.ops| && job.ops[k].action.RecordAudit?
    && s.run.Some? && job.ops[k].id in s.run.value.states
    && s.run.value.states[job.ops[k].id] in {Intent, Ambiguous}
    && s.phase != Intended(k) && s.phase != Sent(k)
  }

  lemma AuditNeverLands(op: Operation)
    requires op.action.RecordAudit?
    ensures forall w :: Postcondition(op, w) == NotLanded
  {
  }

  lemma AuditLostKept(job: Job, s: System, t: System, k: nat)
    requires DistinctIds(job.ops) && AuditLost(job, s, k) && Next(job, s, t)
    ensures AuditLost(job, t, k) && !Finalize(job, s, t)
  {
    hide PublisherCheck, AdapterAccepts, Effect, Postcondition, DistinctIds, StepAt;
    var id := job.ops[k].id;
    assert !Finalize(job, s, t) by {
      assert id in s.run.value.states && s.run.value.states[id] != Applied;
    }
    if i: nat :| StepAt(job, s, t, i) {
      AuditLostStep(job, s, t, k, i);
    }
  }

  lemma AuditLostStep(job: Job, s: System, t: System, k: nat, i: nat)
    requires DistinctIds(job.ops) && AuditLost(job, s, k) && StepAt(job, s, t, i)
    ensures AuditLost(job, t, k)
  {
    hide PublisherCheck, AdapterAccepts, Effect, Postcondition;
    AuditNeverLands(job.ops[k]);
    if i < |job.ops| && i != k {
      assert job.ops[i].id != job.ops[k].id by {
        if i < k { assert job.ops[i].id != job.ops[k].id; } else { assert job.ops[k].id != job.ops[i].id; }
      }
    }
  }

  /** Such a publication never completes: the recovery gate is always false for an audit record. */
  lemma {:induction false} LostAuditNeverCompletes(job: Job, trace: seq<System>, k: nat, j: nat)
    requires DistinctIds(job.ops) && Trace(job, trace) && j < |trace|
    requires AuditLost(job, trace[0], k) && trace[0].run.value.status != Completed
    ensures AuditLost(job, trace[j], k) && trace[j].run.value.status != Completed
    decreases j
  {
    hide DistinctIds, Next, AuditLost;
    if j > 0 {
      LostAuditNeverCompletes(job, trace, k, j - 1);
      assert Next(job, trace[j - 1], trace[j]);
      AuditLostKept(job, trace[j - 1], trace[j], k);
      OnlyFinalizeCompletes(job, trace[j - 1], trace[j], k);
    }
  }

  lemma OnlyFinalizeCompletes(job: Job, s: System, t: System, k: nat)
    requires AuditLost(job, s, k) && Next(job, s, t) && !Finalize(job, s, t) && s.run.value.status != Completed
    ensures t.run.Some? && t.run.value.status != Completed
  {
    hide PublisherCheck, AdapterAccepts, Postcondition, Effect;
  }

  /** A committed operation that was reported with a plain error. */
  ghost predicate CommittedButRetryable(job: Job, s: System, k: nat) {
    && InvAt(job, s, k) && k < |job.ops|
    && StateOf(s.run.value, k) == Retryable
    && s.world == After(job.start, job.ops, k + 1)
    && !ChangesStatus(job.ops[k].action) && !job.ops[k].action.RecordAudit?
  }

  lemma CommittedRetryFails(job: Job, s: System, k: nat)
    requires Publishable(job) && CommittedButRetryable(job, s, k)
    ensures !PublisherCheck(job.ops[k], s.world)
  {
    assert GateExact(job, k);
    hide PublisherCheck, Postcondition, Fold, InvAt;
  }

  lemma RetryStep(job: Job, s: System, t: System, k: nat, i: nat)
    requires Publishable(job) && CommittedButRetryable(job, s, k) && StepAt(job, s, t, i)
    ensures Skip(job, s, t, i) || Drop(s, t, i) || (Land(job, s, t, i) && i < k)
  {
    CommittedRetryFails(job, s, k);
    hide PublisherCheck, AdapterAccepts, Postcondition, Fold, Publishable, InOrder, Effect, CommitsAt, Writes;
    if !Skip(job, s, t, i) && !Drop(s, t, i) && !Land(job, s, t, i) {
      ExaminesFrontier(job, s, k, i);
    }
  }

  /** Every later session is rejected by the publisher's own check, whatever the network does. */
  lemma CommittedRetryRejected(job: Job, s: System, t: System, k: nat)
    requires Publishable(job) && CommittedButRetryable(job, s, k) && Next(job, s, t)
    ensures CommittedButRetryable(job, t, k) && t.world == s.world && !Intend(job, s, t, k)
  {
    CommittedRetryFails(job, s, k);
    hide PublisherCheck, AdapterAccepts, Postcondition, Fold, Publishable, InOrder, Effect, CommitsAt, RequestsAt, StepAt;
    if Begin(job, s, t) {
      NeverBegins(job, s, t, k);
    } else if Crash(s, t) || Resume(s, t) {
      PhaseOnlyKeeps(job, s, t, k);
    } else if Finalize(job, s, t) {
      assert false;
    } else {
      var i: nat :| StepAt(job, s, t, i);
      RetryStep(job, s, t, k, i);
      if Skip(job, s, t, i) {
        SkipKeeps(job, s, t, k, i);
      } else if Drop(s, t, i) {
        DropKeeps(job, s, t, k, i);
      } else {
        LateLandKeeps(job, s, t, k, i);
      }
    }
  }
}
