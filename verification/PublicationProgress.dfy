/** When a publication can be finished, read off its journal, and how it can get stuck. */
module PublicationProgress {
  import opened Basics
  import opened Backlog
  import opened Operations
  import opened PlanDiff
  import opened DiffSoundness
  import opened DiffTheorems
  import opened Publication
  import opened PublicationSafety
  import opened PublicationTheorems
  import opened Publisher
  import opened Journal

  /** Every recorded operation passes its guards in the world its predecessors produce. */
  ghost predicate Passable(job: Job) {
    forall i :: 0 <= i < |job.ops| ==> Passes(job.ops[i], After(job.start, job.ops, i))
  }

  /** The pending operation, as the journal and the store show it, can still be brought to its end. */
  ghost predicate Recoverable(job: Job, s: System, k: nat)
    requires s.run.Some? && Recorded(job, s.run.value) && Shape(s.run.value, k) && k < |job.ops|
  {
    var op := job.ops[k];
    var state := StateOf(s.run.value, k);
    if state.Planned? then true
    else if state.Retryable? then
      s.world == After(job.start, job.ops, k) || ChangesStatus(op.action) || op.action.RecordAudit?
    else !op.action.RecordAudit? && s.world == After(job.start, job.ops, k + 1)
  }

  /** The adapter's checks do not look at a status either. */
  lemma AcceptanceIgnoresStatus(op: Operation, w: World)
    requires ChangesStatus(op.action)
    ensures AdapterAccepts(op, Effect(op, w)) <==> AdapterAccepts(op, w)
  {
  }

  /** Just after its effect an operation passes again exactly when it re-states a status or records the audit. */
  lemma PassesAgain(job: Job, k: nat)
    requires Publishable(job) && k < |job.ops| && Passes(job.ops[k], After(job.start, job.ops, k))
    ensures Passes(job.ops[k], After(job.start, job.ops, k + 1)) <==>
      ChangesStatus(job.ops[k].action) || job.ops[k].action.RecordAudit?
  {
    assert GateExact(job, k);
    hide Fold, Effect, PublisherCheck, Postcondition, Publishable, After;
    if ChangesStatus(job.ops[k].action) {
      hide AdapterAccepts;
      AcceptanceIgnoresStatus(job.ops[k], After(job.start, job.ops, k));
    }
  }

  /** The gate sees the pending effect exactly when the store holds it. */
  lemma GateSeesEffect(job: Job, s: System, k: nat)
    requires Publishable(job) && InvAt(job, s, k) && k < |job.ops|
    requires Passes(job.ops[k], After(job.start, job.ops, k))
    ensures Postcondition(job.ops[k], s.world) == Landed <==>
      !job.ops[k].action.RecordAudit? && s.world == After(job.start, job.ops, k + 1)
  {
    assert GateExact(job, k);
    hide Fold, Effect, PublisherCheck, AdapterAccepts, After, CommitsAt, RequestsAt, PhaseAt, Shape;
    if job.ops[k].action.RecordAudit? {
      AuditNeverLands(job.ops[k]);
    }
    hide Postcondition;
  }

  /**
    Progress of resume. When the recorded guards pass, one undisturbed session finishes the
    publication from a reachable journal exactly if nothing is pending, or the pending operation
    is planned, retryable and either uncommitted or re-stated harmlessly, or interrupted with its
    effect in the store; an interrupted audit record is the exception.
   */
  lemma ResumeProgress(job: Job, s: System, k: nat)
    requires Publishable(job) && Passable(job) && InvAt(job, s, k)
    ensures Completable(job, s, k) <==> (k == |job.ops| || Recoverable(job, s, k))
  {
    InvHasShape(job, s, k);
    if k < |job.ops| {
      PassesAgain(job, k);
      GateSeesEffect(job, s, k);
      PendingWorld(job, s, k);
      if job.ops[k].action.RecordAudit? {
        AuditKeepsWorld(job, k);
      }
      hide Fold, After, Passes, Postcondition, InvAt, Publishable, Recorded, Shape;
    }
  }

  lemma PendingWorld(job: Job, s: System, k: nat)
    requires InvAt(job, s, k) && k < |job.ops|
    ensures StateOf(s.run.value, k) != Applied
    ensures s.world == After(job.start, job.ops, k) || s.world == After(job.start, job.ops, k + 1)
    ensures StateOf(s.run.value, k) == OpState.Planned ==> s.world == After(job.start, job.ops, k)
  {
    hide Fold, Effect, PublisherCheck, CommitsAt, RequestsAt, PhaseAt;
  }

  lemma AuditKeepsWorld(job: Job, k: nat)
    requires k < |job.ops| && job.ops[k].action.RecordAudit?
    ensures After(job.start, job.ops, k + 1) == After(job.start, job.ops, k)
  {
    AfterStep(job.start, job.ops, k);
  }

  /** For a diff the condition on the guards is the one of the guard chain. */
  lemma DiffResumes(plan: Plan, snap: Snapshot, s: System, k: nat)
    requires WellReferenced(plan) && InvAt(JobOf(plan, snap), s, k)
    requires Unobstructed(plan, snap)
    ensures Publishable(JobOf(plan, snap))
    ensures Completable(JobOf(plan, snap), s, k) <==>
      (k == |Diff(plan, snap)| || Recoverable(JobOf(plan, snap), s, k))
  {
    DiffIsPublishable(plan, snap);
    GuardChain(plan, snap);
    hide Diff, Publishable, InvAt, Unobstructed, Completable, Recoverable, Passes, After;
    ResumeProgress(JobOf(plan, snap), s, k);
  }

  // ----- how a publication gets stuck -----

  /** An undisturbed history that has applied exactly the first `k` operations. */
  ghost predicate Reached(job: Job, trace: seq<System>, k: nat) {
    && History(job, trace) && trace != []
    && var s := Last(trace);
       && InvAt(job, s, k) && s.phase == Scanning(k) && s.inflight == multiset{}
       && s.world == After(job.start, job.ops, k)
       && s.run.value.status == InProgress
       && (k < |job.ops| ==> StateOf(s.run.value, k) == OpState.Planned)
  }

  lemma StartReached(job: Job) returns (trace: seq<System>)
    requires Publishable(job)
    ensures Reached(job, trace, 0)
  {
    var s := Publication.Initial(job);
    var t := s.(run := Some(FreshRun(job.ops)), phase := Scanning(0));
    assert Begin(job, s, t);
    BeginKeeps(job, s, t);
    trace := [s, t];
    if job.ops != [] {
      assert job.ops[0] in job.ops;
    }
  }

  /** Operation `k` is intended. */
  lemma IntendReached(job: Job, trace: seq<System>, k: nat) returns (longer: seq<System>, t: System)
    requires Publishable(job) && Passable(job) && Reached(job, trace, k) && k < |job.ops|
    ensures longer != [] && History(job, longer) && Last(longer) == t && InvAt(job, t, k)
    ensures t == Last(trace).(run := Some(Mark(Last(trace).run.value, job.ops[k], Intent)), phase := Intended(k))
  {
    hide Publishable, Fold, Effect, AdapterAccepts, PublisherCheck, Postcondition;
    var s := Last(trace);
    t := s.(run := Some(Mark(s.run.value, job.ops[k], Intent)), phase := Intended(k));
    assert Passes(job.ops[k], s.world);
    assert Intend(job, s, t, k);
    IntendKeeps(job, s, t, k);
    longer := trace + [t];
    hide InvAt, Intend;
    assert StepAt(job, s, t, k);
    ExtendAt(job, trace, t, k);
  }

  /** Its request is sent and lands. */
  lemma LandReached(job: Job, trace: seq<System>, k: nat) returns (longer: seq<System>, t: System)
    requires Publishable(job) && Passable(job) && k < |job.ops| && !job.ops[k].action.RecordAudit?
    requires trace != [] && History(job, trace) && InvAt(job, Last(trace), k)
    requires Last(trace).phase == Intended(k) && Last(trace).inflight == multiset{}
    requires Last(trace).world == After(job.start, job.ops, k)
    ensures longer != [] && History(job, longer) && Last(longer) == t && InvAt(job, t, k)
    ensures t == Last(trace).(world := After(job.start, job.ops, k + 1), inflight := multiset{},
                              commits := Last(trace).commits + [k], phase := Sent(k))
    ensures Postcondition(job.ops[k], t.world) == Landed
  {
    assert GateExact(job, k);
    var s := Last(trace);
    assert Passes(job.ops[k], s.world);
    t := s.(world := After(job.start, job.ops, k + 1), inflight := multiset{}, commits := s.commits + [k], phase := Sent(k));
    hide Publishable, Fold, Effect, AdapterAccepts, PublisherCheck, Postcondition, InvAt, Next, After;
    longer := ExtendRequest(job, trace, s, t, k, Arrives);
  }

  /** One more operation is applied. */
  lemma NextReached(job: Job, trace: seq<System>, k: nat) returns (longer: seq<System>)
    requires Publishable(job) && Passable(job) && Reached(job, trace, k) && k < |job.ops|
    ensures Reached(job, longer, k + 1)
  {
    hide Publishable, Passable, Fold, Effect, AdapterAccepts, PublisherCheck, Postcondition, After, InvAt, Next;
    var s := Last(trace);
    var t;
    longer, t := IntendReached(job, trace, k);
    if job.ops[k].action.RecordAudit? {
      AuditKeepsWorld(job, k);
    } else {
      longer, t := LandReached(job, longer, k);
    }
    var u := t.(run := Some(Mark(t.run.value, job.ops[k], Applied)), phase := Scanning(k + 1));
    assert if job.ops[k].action.RecordAudit? then Acknowledge(job, t, u, k) else ReplyOk(job, t, u, k);
    assert StepAt(job, t, u, k);
    ExtendAt(job, longer, u, k);
    longer := longer + [u];
    AppliedReached(job, s, t, u, k);
  }

  lemma AppliedReached(job: Job, s: System, t: System, u: System, k: nat)
    requires Publishable(job) && k < |job.ops| && InvAt(job, s, k) && InvAt(job, t, k)
    requires t.world == After(job.start, job.ops, k + 1) && t.inflight == multiset{}
    requires t.run == Some(Mark(s.run.value, job.ops[k], Intent))
    requires u == t.(run := Some(Mark(t.run.value, job.ops[k], Applied)), phase := Scanning(k + 1))
    ensures InvAt(job, u, k + 1) && u.run.value.status == s.run.value.status
    ensures k + 1 < |job.ops| ==> StateOf(u.run.value, k + 1) == OpState.Planned
  {
    hide Fold, Effect, PublisherCheck, Publishable;
    ApplyKeeps(job, t, u, k);
    MarkStates(job, t, k, Applied, u);
    hide CommitsAt, RequestsAt, WorldAt, PhaseAt;
  }

  lemma {:induction false} AllReached(job: Job, k: nat) returns (trace: seq<System>)
    requires Publishable(job) && Passable(job) && k <= |job.ops|
    ensures Reached(job, trace, k)
    decreases k
  {
    hide Publishable, Passable, Reached;
    if k == 0 {
      trace := StartReached(job);
    } else {
      trace := AllReached(job, k - 1);
      trace := NextReached(job, trace, k - 1);
    }
  }

  /** Every passable publication with an audit record has a history that loses it for good. */
  lemma LostAuditReachable(job: Job, k: nat) returns (trace: seq<System>)
    requires Publishable(job) && Passable(job) && k < |job.ops| && job.ops[k].action.RecordAudit?
    ensures trace != [] && History(job, trace)
    ensures AuditLost(job, Last(trace), k) && Last(trace).run.value.status != Completed
  {
    hide Publishable, Passable, Fold, Effect, PublisherCheck, Postcondition, After, InvAt, Next;
    trace := AllReached(job, k);
    var s := Last(trace);
    var t;
    trace, t := IntendReached(job, trace, k);
    var u := t.(phase := Idle);
    CrashStep(job, t);
    Extend(job, trace, u);
    trace := trace + [u];
  }

  lemma CrashStep(job: Job, t: System)
    ensures Next(job, t, t.(phase := Idle))
  {
    assert Crash(t, t.(phase := Idle));
  }

  /** Every passable publication has a history that leaves any mutation committed but retryable. */
  lemma CommittedButRetryableReachable(job: Job, k: nat) returns (trace: seq<System>)
    requires Publishable(job) && Passable(job) && k < |job.ops|
    requires !job.ops[k].action.RecordAudit? && !ChangesStatus(job.ops[k].action)
    ensures trace != [] && History(job, trace) && CommittedButRetryable(job, Last(trace), k)
  {
    hide Publishable, Passable, Fold, Effect, PublisherCheck, AdapterAccepts, Postcondition, After, InvAt, Next;
    trace := AllReached(job, k);
    var t;
    trace, t := IntendReached(job, trace, k);
    trace, t := LandReached(job, trace, k);
    var u := t.(run := Some(Mark(t.run.value, job.ops[k], Retryable)), phase := Idle);
    assert ReplyPlain(job, t, u, k);
    ExtendAt(job, trace, u, k);
    trace := trace + [u];
    RetryableReached(job, t, u, k);
  }

  lemma RetryableReached(job: Job, t: System, u: System, k: nat)
    requires Publishable(job) && k < |job.ops| && InvAt(job, t, k) && t.inflight == multiset{} && t.phase == Sent(k)
    requires u == t.(run := Some(Mark(t.run.value, job.ops[k], Retryable)), phase := Idle)
    ensures InvAt(job, u, k) && StateOf(u.run.value, k) == Retryable
  {
    hide Fold, Effect, PublisherCheck, Publishable;
    WriteKeeps(job, t, u, k, Retryable, Idle);
    MarkStates(job, t, k, Retryable, u);
  }

  /** Both dead ends exist: publishing a single new item can run into either of them. */
  lemma DeadEndsExist() returns (plan: Plan, snap: Snapshot, lost: seq<System>, committed: seq<System>)
    ensures WellReferenced(plan) && EveryGuardPasses(plan, snap)
    ensures lost != [] && History(JobOf(plan, snap), lost)
    ensures |Diff(plan, snap)| > 0 && AuditLost(JobOf(plan, snap), Last(lost), |Diff(plan, snap)| - 1)
    ensures committed != [] && History(JobOf(plan, snap), committed)
    ensures CommittedButRetryable(JobOf(plan, snap), Last(committed), 0)
  {
    hide Diff, Publishable, Passes, After, Fold, History, AuditLost, CommittedButRetryable, WellReferenced;
    var a;
    plan, snap, a := OneNewItem();
    DiffIsPublishable(plan, snap);
    CreationFirst(plan, snap, a);
    lost := LostAuditReachable(JobOf(plan, snap), |Diff(plan, snap)| - 1);
    committed := CommittedButRetryableReachable(JobOf(plan, snap), 0);
  }

  lemma OneNewItem() returns (plan: Plan, snap: Snapshot, item: Item)
    ensures plan.items == [item] && snap.packages == map[]
    ensures WellReferenced(plan) && EveryGuardPasses(plan, snap)
  {
    item := Item("a", "", None, [], [], [], [], [], []);
    plan := Plan("p", 1, 7, None, None, [item]);
    snap := Snapshot("", map[]);
    assert References(item) == {};
    GuardChain(plan, snap);
  }

  /** Publishing one new item begins with its creation and ends with the audit record. */
  lemma CreationFirst(plan: Plan, snap: Snapshot, item: Item)
    requires plan.items == [item] && snap.packages == map[]
    ensures |Diff(plan, snap)| > 0 && Diff(plan, snap)[0].action.CreateWorkPackage?
    ensures Diff(plan, snap)[|Diff(plan, snap)| - 1].action.RecordAudit?
  {
    var items := SortItems(plan.items);
    assert |items| == 1 by { assert |multiset(items)| == |multiset(plan.items)|; }
    assert CreateOps(plan, snap, items) != [] by {
      CreateOpsEmpty(plan, snap, items);
      assert items[0] in items;
    }
    EarlyCreation(plan, snap, 0);
    hide CreateOps, NodesOps, SupersedeOps, SortItems;
  }
}
