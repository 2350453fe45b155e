/** `publish`: the loop that drives the journal and the store, proved to follow the transition system. */
module Publisher {
  import opened Basics
  import opened Backlog
  import opened Operations
  import opened PlanDiff
  import opened DiffSoundness
  import opened Publication
  import opened PublicationSafety
  import opened PublicationTheorems
  import opened DiffTheorems
  import opened Journal

  /** The abstract system shown by a journal and a store, with the session at `phase`. */
  ghost function View(journal: PublicationJournal, store: RemoteStore, event: string, phase: Phase): System
    reads journal, store
  {
    System(store.world, store.inflight, store.commits,
           if event in journal.entries then Some(journal.entries[event].run) else None,
           phase)
  }

  function FateOf(fault: Fault): Fate {
    if fault.Trouble? then fault.fate else Arrives
  }

  /** What the adapter would report if it did not look at the store again. */
  function Wished(fault: Fault): Report {
    if fault.Trouble? then fault.report else Acknowledged
  }

  /** The adapter's `apply`, under one choice of what goes wrong. */
  method Apply(store: RemoteStore, ordinal: nat, op: Operation, fault: Fault) returns (report: Report, ghost sent: bool)
    modifies store
    ensures !sent ==> store.world == old(store.world) && store.inflight == old(store.inflight)
                      && store.commits == old(store.commits)
                      && report == if op.action.RecordAudit? then Acknowledged else PlainError
    ensures sent ==> !op.action.RecordAudit? && AdapterAccepts(op, old(store.world))
    ensures sent ==>
      && store.world == (if FateOf(fault) == Arrives then Effect(op, old(store.world)) else old(store.world))
      && store.inflight == (if FateOf(fault) == Travels then old(store.inflight) + multiset{ordinal} else old(store.inflight))
      && store.commits == (if FateOf(fault) == Arrives then old(store.commits) + [ordinal] else old(store.commits))
    ensures sent && report == Acknowledged ==> Postcondition(op, store.world) == Landed
    ensures sent && report == PlainError ==> ordinal !in store.inflight || Postcondition(op, store.world) == Landed
    ensures sent <==> !op.action.RecordAudit? && !fault.FailsEarly? && AdapterAccepts(op, old(store.world))
    ensures sent ==>
      var seen := Postcondition(op, store.world) == Landed;
      && (report == Acknowledged <==> Wished(fault) == Acknowledged && seen)
      && (report == PlainError <==> Wished(fault) == PlainError && (seen || ordinal !in store.inflight))
      && (report == Died <==> Wished(fault) == Died)
  {
    if op.action.RecordAudit? {
      return Acknowledged, false;
    }
    if fault.FailsEarly? || !AdapterAccepts(op, store.world) {
      return PlainError, false;
    }
    store.Request(ordinal, op, FateOf(fault));
    var seen := Postcondition(op, store.world) == Landed;
    report := Wished(fault);
    if report == Acknowledged && !seen {
      report := AmbiguousError;
    }
    if report == PlainError && !seen && ordinal in store.inflight {
      report := AmbiguousError;
    }
    sent := true;
  }

  // ----- traces -----

  ghost function Last(trace: seq<System>): System
    requires trace != []
  {
    trace[|trace| - 1]
  }

  lemma Extend(job: Job, trace: seq<System>, t: System)
    requires Trace(job, trace) && Next(job, Last(trace), t)
    ensures Trace(job, trace + [t]) && Last(trace + [t]) == t && (trace + [t])[0] == trace[0]
  {
    hide Next;
    var longer := trace + [t];
    forall i | 0 <= i < |longer| - 1 ensures Next(job, longer[i], longer[i + 1]) {
      if i < |trace| - 1 {
        assert Next(job, trace[i], trace[i + 1]);
      }
    }
  }

  lemma ExtendAt(job: Job, trace: seq<System>, t: System, i: nat)
    requires Trace(job, trace) && StepAt(job, Last(trace), t, i)
    ensures Trace(job, trace + [t]) && Last(trace + [t]) == t && (trace + [t])[0] == trace[0]
  {
    hide StepAt;
    Extend(job, trace, t);
  }

  /** The request of operation `i` leaves the adapter and meets its fate. */
  lemma ExtendRequest(job: Job, trace: seq<System>, s: System, t: System, i: nat, fate: Fate) returns (longer: seq<System>)
    requires Trace(job, trace) && Last(trace) == s && Publishable(job) && InvAt(job, s, i) && i < |job.ops|
    requires s.phase == Intended(i) && !job.ops[i].action.RecordAudit?
    requires AdapterAccepts(job.ops[i], s.world)
    requires t == s.(
      world := if fate == Arrives then Effect(job.ops[i], s.world) else s.world,
      inflight := if fate == Travels then s.inflight + multiset{i} else s.inflight,
      commits := if fate == Arrives then s.commits + [i] else s.commits,
      phase := Sent(i))
    ensures Trace(job, longer) && longer != [] && Last(longer) == t && longer[0] == trace[0]
    ensures InvAt(job, t, i)
  {
    hide Effect, AdapterAccepts, Publishable, InvAt, Trace;
    var u := s.(inflight := s.inflight + multiset{i}, phase := Sent(i));
    ExtendAt(job, trace, u, i);
    SendKeeps(job, s, u, i);
    longer := trace + [u];
    assert u.inflight - multiset{i} == s.inflight;
    if fate == Arrives {
      assert Land(job, u, t, i);
      ExtendAt(job, longer, t, i);
      LandKeeps(job, u, t, i);
      longer := longer + [t];
    } else if fate == Vanishes {
      assert Drop(u, t, i);
      ExtendAt(job, longer, t, i);
      DropKeeps(job, u, t, i, i);
      longer := longer + [t];
    }
  }

  /** When one undisturbed session gets past the operation it finds at position `i`. */
  ghost predicate Ready(job: Job, s: System, k: nat)
    requires s.run.Some? && Recorded(job, s.run.value) && Shape(s.run.value, k) && k < |job.ops|
  {
    if StateOf(s.run.value, k) in {Intent, Ambiguous} then Postcondition(job.ops[k], s.world) == Landed
    else Passes(job.ops[k], s.world)
  }

  /** The publisher's check does not look at the status. */
  lemma CheckIgnoresStatus(op: Operation, w: World)
    requires ChangesStatus(op.action) && PublisherCheck(op, Effect(op, w))
    ensures PublisherCheck(op, w)
  {
  }

  /** After a passing check, an undisturbed request always reaches its postcondition. */
  lemma SmoothLands(job: Job, s: System, k: nat)
    requires Publishable(job) && InvAt(job, s, k) && k < |job.ops|
    requires !job.ops[k].action.RecordAudit? && PublisherCheck(job.ops[k], s.world)
    ensures Effect(job.ops[k], s.world) == After(job.start, job.ops, k + 1)
    ensures Postcondition(job.ops[k], After(job.start, job.ops, k + 1)) == Landed
  {
    assert GateExact(job, k);
    if s.world != After(job.start, job.ops, k) {
      assert ChangesStatus(job.ops[k].action);
      Harmless(job, k, k + 1);
      CheckIgnoresStatus(job.ops[k], After(job.start, job.ops, k));
    }
  }

  lemma AuditChangesNothing(job: Job, s: System, k: nat)
    requires InvAt(job, s, k) && k < |job.ops| && job.ops[k].action.RecordAudit?
    ensures s.world == After(job.start, job.ops, k + 1) && AdapterAccepts(job.ops[k], s.world)
  {
    AfterStep(job.start, job.ops, k);
  }

  // ----- one operation -----

  /** Nothing in the journal differs but the run of one event. */
  ghost predicate OnlyRun(before: map<string, Entry>, after: map<string, Entry>, event: string) {
    && event in before && event in after
    && after == before[event := Entry(before[event].digest, after[event].run)]
  }

  /** The session `journal` stands at position `i` of the recorded list, and `trace` led here. */
  ghost predicate At(job: Job, journal: PublicationJournal, store: RemoteStore, event: string,
                     trace: seq<System>, phase: Phase)
    reads journal, store
  {
    && event in journal.entries
    && trace != [] && Trace(job, trace) && Last(trace) == View(journal, store, event, phase)
  }

  /** An interrupted operation: only an observed postcondition recovers it. */
  method RecoverPending(ghost job: Job, op: Operation, i: nat, journal: PublicationJournal, store: RemoteStore,
                        event: string, fault: Fault, ghost trace: seq<System>, ghost k: nat)
    returns (advanced: bool, ghost longer: seq<System>)
    requires At(job, journal, store, event, trace, Scanning(i)) && journal.active == event
    requires Publishable(job) && InvAt(job, Last(trace), k) && i == k < |job.ops| && op == job.ops[i]
    requires StateOf(journal.entries[event].run, i) in {OpState.Intent, Ambiguous}
    modifies journal`entries, store
    ensures At(job, journal, store, event, longer, if advanced then Scanning(i + 1) else Idle) && longer[0] == trace[0]
    ensures advanced ==> InvAt(job, Last(longer), i + 1)
                         && journal.entries[event].run == old(Mark(journal.entries[event].run, op, Applied))
    ensures fault.Smooth? ==> (advanced <==> Ready(job, Last(trace), k)) && store.inflight == old(store.inflight)
    ensures unchanged(store) && journal.active == event
    ensures journal.entries == if fault.DiesBeforeIntent? then old(journal.entries) else old(
              match Postcondition(op, store.world)
              case Landed => journal.Marked(op, Applied)
              case NotLanded => journal.Marked(op, Ambiguous)
              case Malformed => journal.entries)
  {
    hide Publishable, GateExact, PublisherCheck, AdapterAccepts, Postcondition, Effect, Fold, RequestsAt, CommitsAt, Trace;
    ghost var s := Last(trace);
    if fault.DiesBeforeIntent? {
      ghost var t := s.(phase := Idle);
      Extend(job, trace, t);
      return false, trace + [t];
    }
    var verdict := Postcondition(op, store.world);
    if verdict == Landed {
      GateIsCertain(job, s, k);
      var ok := journal.Outcome(op);
      ghost var t := View(journal, store, event, Scanning(i + 1));
      assert Recover(job, s, t, i);
      ApplyKeeps(job, s, t, k);
      ExtendAt(job, trace, t, i);
      return true, trace + [t];
    }
    if verdict == NotLanded {
      if journal.entries[event].run.states[op.id] == OpState.Intent {
        var ok := journal.Failure(op, true);
      }
      ghost var t := View(journal, store, event, Idle);
      assert StayAmbiguous(job, s, t, i) by {
        assert t.run.value.states == s.run.value.states[op.id := Ambiguous];
      }
      ExtendAt(job, trace, t, i);
      return false, trace + [t];
    }
    ghost var t := s.(phase := Idle);
    Extend(job, trace, t);
    return false, trace + [t];
  }

  function Remarked(entries: map<string, Entry>, event: string, op: Operation, state: OpState): map<string, Entry>
    requires event in entries
  {
    entries[event := Entry(entries[event].digest, Mark(entries[event].run, op, state))]
  }

  lemma MarkTwice(entries: map<string, Entry>, event: string, op: Operation, first: OpState, second: OpState)
    requires event in entries
    ensures Remarked(Remarked(entries, event, op, first), event, op, second) == Remarked(entries, event, op, second)
  {
    assert Mark(Mark(entries[event].run, op, first), op, second) == Mark(entries[event].run, op, second);
  }

  lemma MarkSame(entries: map<string, Entry>, event: string, op: Operation, state: OpState)
    requires event in entries && op.id in entries[event].run.states && entries[event].run.states[op.id] == state
    ensures Remarked(entries, event, op, state) == entries
  {
    assert Mark(entries[event].run, op, state) == entries[event].run;
  }

  /** A planned or retryable operation: check the store, record the intent, call the adapter. */
  method Attempt(ghost job: Job, op: Operation, i: nat, journal: PublicationJournal, store: RemoteStore,
                 event: string, fault: Fault, ghost trace: seq<System>, ghost k: nat)
    returns (advanced: bool, ghost report: Report, ghost longer: seq<System>)
    requires At(job, journal, store, event, trace, Scanning(i)) && journal.active == event
    requires Publishable(job) && InvAt(job, Last(trace), k) && i == k < |job.ops| && op == job.ops[i]
    requires StateOf(journal.entries[event].run, i) in {OpState.Planned, Retryable}
    modifies journal`entries, store
    ensures At(job, journal, store, event, longer, if advanced then Scanning(i + 1) else Idle) && longer[0] == trace[0]
    ensures advanced ==> InvAt(job, Last(longer), i + 1)
                         && journal.entries[event].run == old(Mark(journal.entries[event].run, op, Applied))
    ensures fault.Smooth? ==> (advanced <==> Ready(job, Last(trace), k)) && store.inflight == old(store.inflight)
    ensures fault.DiesBeforeIntent? || !old(PublisherCheck(op, store.world)) ==>
      !advanced && journal.entries == old(journal.entries) && unchanged(store)
    ensures !fault.DiesBeforeIntent? && old(PublisherCheck(op, store.world)) ==>
      && journal.entries == old(journal.Marked(op, RecordedAs(report)))
      && (advanced <==> report == Acknowledged)
      && (fault.DiesAfterIntent? ==> report == Died && unchanged(store))
      && (!fault.DiesAfterIntent? ==> Reported(op, i, fault, old(store.world), store.world, store.inflight, report))
  {
    hide Publishable, GateExact, PublisherCheck, AdapterAccepts, Postcondition, Effect, Fold, CommitsAt, RequestsAt, Trace;
    ghost var s := Last(trace);
    if fault.DiesBeforeIntent? || !PublisherCheck(op, store.world) {
      ghost var t := s.(phase := Idle);
      Extend(job, trace, t);
      return false, Died, trace + [t];
    }
    var ok := journal.Intent(op);
    ghost var s1 := View(journal, store, event, Intended(i));
    assert Intend(job, s, s1, i);
    ExtendAt(job, trace, s1, i);
    IntendKeeps(job, s, s1, k);
    if fault.DiesAfterIntent? {
      ghost var t := s1.(phase := Idle);
      Extend(job, trace + [s1], t);
      return false, Died, trace + [s1] + [t];
    }
    advanced, report, longer := CallAdapter(job, op, i, journal, store, event, fault, trace + [s1], k);
    MarkTwice(old(journal.entries), event, op, OpState.Intent, RecordedAs(report));
  }

  /** The state the journal holds for an operation once its adapter call was reported, or cut off. */
  function RecordedAs(report: Report): OpState {
    match report
    case Acknowledged => Applied
    case PlainError => Retryable
    case AmbiguousError => Ambiguous
    case Died => OpState.Intent
  }

  /** What one adapter call makes of store and report. */
  predicate Reported(op: Operation, ordinal: nat, fault: Fault, before: World, after: World, inflight: multiset<nat>, report: Report) {
    if op.action.RecordAudit? then report == Acknowledged && after == before
    else if fault.FailsEarly? || !AdapterAccepts(op, before) then report == PlainError && after == before
    else
      var seen := Postcondition(op, after) == Landed;
      && after == (if FateOf(fault) == Arrives then Effect(op, before) else before)
      && (report == Acknowledged <==> Wished(fault) == Acknowledged && seen)
      && (report == PlainError <==> Wished(fault) == PlainError && (seen || ordinal !in inflight))
      && (report == Died <==> Wished(fault) == Died)
  }

  /** The intent is recorded; what the adapter reports decides the outcome. */
  method CallAdapter(ghost job: Job, op: Operation, i: nat, journal: PublicationJournal, store: RemoteStore,
                     event: string, fault: Fault, ghost trace: seq<System>, ghost k: nat)
    returns (advanced: bool, ghost report: Report, ghost longer: seq<System>)
    requires At(job, journal, store, event, trace, Intended(i)) && journal.active == event
    requires Publishable(job) && InvAt(job, Last(trace), k) && i == k < |job.ops| && op == job.ops[i]
    requires journal.Knows(op) && journal.entries[event].run.states[op.id] == OpState.Intent
    modifies journal`entries, store
    ensures At(job, journal, store, event, longer, if advanced then Scanning(i + 1) else Idle) && longer[0] == trace[0]
    ensures advanced ==> InvAt(job, Last(longer), i + 1)
                         && journal.entries[event].run == old(Mark(journal.entries[event].run, op, Applied))
    ensures fault.Smooth? ==> (advanced <==> old(AdapterAccepts(op, store.world))) && store.inflight == old(store.inflight)
    ensures advanced <==> report == Acknowledged
    ensures journal.entries == old(journal.Marked(op, RecordedAs(report)))
    ensures Reported(op, i, fault, old(store.world), store.world, store.inflight, report)
  {
    hide Publishable, GateExact, PublisherCheck, AdapterAccepts, Postcondition, Effect, Fold, CommitsAt, Trace;
    ghost var s := Last(trace);
    if op.action.RecordAudit? { AuditChangesNothing(job, s, k); } else { SmoothLands(job, s, k); }
    var answer, sent := Apply(store, i, op, fault);
    report := answer;
    longer := trace;
    ghost var u := View(journal, store, event, if sent then Sent(i) else Intended(i));
    if sent {
      longer := ExtendRequest(job, trace, s, u, i, FateOf(fault));
    }
    advanced := answer == Acknowledged;
    if answer == Acknowledged {
      if sent { GateIsCertain(job, u, k); }
      var ok := journal.Outcome(op);
    } else if answer != Died {
      var ok := journal.Failure(op, answer == AmbiguousError);
    }
    MarkSame(old(journal.entries), event, op, OpState.Intent);
    assert journal.entries == old(journal.Marked(op, RecordedAs(report)));
    ghost var t := View(journal, store, event, if advanced then Scanning(i + 1) else Idle);
    if advanced {
      ApplyKeeps(job, u, t, k);
    }
    if report == Died {
      Extend(job, longer, t);
    } else {
      assert StepAt(job, u, t, i);
      ExtendAt(job, longer, t, i);
    }
    longer := longer + [t];
  }

  // ----- a whole session -----

  /** What `publish` returns: the operations this call applied, or a stop with an error. */
  datatype Outcome = Published(applied: seq<Operation>) | Stopped

  /** One undisturbed session finishes the publication exactly when this holds. */
  ghost predicate Completable(job: Job, s: System, k: nat)
    requires s.run.Some? && Recorded(job, s.run.value) && Shape(s.run.value, k)
  {
    k < |job.ops| ==>
      Ready(job, s, k) && forall i :: k < i < |job.ops| ==> Passes(job.ops[i], After(job.start, job.ops, i))
  }

  /** An operation whose effect was observed is recovered, not applied. */
  ghost predicate Recovers(job: Job, s: System, k: nat)
    requires s.run.Some? && Recorded(job, s.run.value) && Shape(s.run.value, k)
  {
    k < |job.ops| && StateOf(s.run.value, k) in {OpState.Intent, Ambiguous}
  }

  ghost function Suffix(job: Job, s: System, k: nat): seq<Operation>
    requires s.run.Some? && Recorded(job, s.run.value) && Shape(s.run.value, k)
  {
    if Recovers(job, s, k) then job.ops[k + 1..] else job.ops[k..]
  }

  lemma InvHasShape(job: Job, s: System, k: nat)
    requires InvAt(job, s, k)
    ensures s.run.Some? && Recorded(job, s.run.value) && Shape(s.run.value, k) && k <= |job.ops|
    ensures forall i :: 0 <= i < |job.ops| ==> (StateOf(s.run.value, i) == Applied <==> i < k)
  {
    hide Fold, Effect, PublisherCheck, InOrder, CommitsAt, RequestsAt, WorldAt;
  }

  /** What the loop finds at position `i` of an undisturbed session that began in `s0`. */
  lemma Frontier(job: Job, s0: System, k0: nat, s: System, i: nat, k: nat)
    requires InvAt(job, s0, k0) && InvAt(job, s, k) && i < |job.ops| && k == (if i <= k0 then k0 else i)
    requires i <= k0 ==> s == s0.(phase := Scanning(i))
    requires k0 < i ==> StateOf(s.run.value, i) == OpState.Planned
    ensures i == k0 ==> (Ready(job, s, i) <==> Ready(job, s0, k0)) && (Recovers(job, s, i) <==> Recovers(job, s0, k0))
    ensures i > k0 ==> (Ready(job, s, i) <==> Passes(job.ops[i], After(job.start, job.ops, i))) && !Recovers(job, s, i)
  {
    hide Fold, Effect, PublisherCheck, AdapterAccepts, Postcondition, InOrder, CommitsAt, RequestsAt;
  }

  lemma MarkedElsewhere(job: Job, run: Run, k: nat, i: nat)
    requires Publishable(job) && Recorded(job, run) && Shape(run, k) && k < i < |job.ops|
    ensures var marked := Mark(run, job.ops[k], Applied);
            job.ops[i].id in marked.states && marked.states[job.ops[i].id] == OpState.Planned
  {
    hide GateExact;
    assert job.ops[k].id != job.ops[i].id;
    assert StateOf(run, i) == OpState.Planned;
  }

  /** Processes the operation at position `i`, whatever its state. */
  method Advance(ghost job: Job, op: Operation, i: nat, journal: PublicationJournal, store: RemoteStore,
                 event: string, fault: Fault, ghost trace: seq<System>, ghost k: nat)
    returns (advanced: bool, recovered: bool, ghost longer: seq<System>)
    requires At(job, journal, store, event, trace, Scanning(i)) && journal.active == event
    requires Publishable(job) && InvAt(job, Last(trace), k) && i == k < |job.ops| && op == job.ops[i]
    modifies journal`entries, store
    ensures At(job, journal, store, event, longer, if advanced then Scanning(i + 1) else Idle) && longer[0] == trace[0]
    ensures advanced ==> InvAt(job, Last(longer), i + 1)
                         && journal.entries[event].run == old(Mark(journal.entries[event].run, op, Applied))
    ensures fault.Smooth? ==> (advanced <==> Ready(job, Last(trace), k)) && store.inflight == old(store.inflight)
    ensures recovered <==> Recovers(job, Last(trace), k)
    ensures OnlyRun(old(journal.entries), journal.entries, event)
  {
    hide Publishable, GateExact, PublisherCheck, AdapterAccepts, Postcondition, Effect, Fold, CommitsAt, RequestsAt,
         WorldAt, PhaseAt, Trace;
    InvHasShape(job, Last(trace), k);
    assert op.id in journal.entries[event].run.states && StateOf(journal.entries[event].run, i) != Applied;
    recovered := journal.entries[event].run.states[op.id] in {OpState.Intent, Ambiguous};
    if recovered {
      advanced, longer := RecoverPending(job, op, i, journal, store, event, fault, trace, k);
    } else {
      ghost var report;
      advanced, report, longer := Attempt(job, op, i, journal, store, event, fault, trace, k);
    }
  }

  /** An undisturbed session that got to position `i` with `applied` so far. */
  ghost predicate SmoothTo(job: Job, s0: System, k0: nat, i: nat, applied: seq<Operation>)
    requires s0.run.Some? && Recorded(job, s0.run.value) && Shape(s0.run.value, k0) && i <= |job.ops|
  {
    if i <= k0 then applied == [] else
      && applied == (if Recovers(job, s0, k0) then job.ops[k0 + 1..i] else job.ops[k0..i])
      && Ready(job, s0, k0)
      && (forall j :: k0 < j < i ==> Passes(job.ops[j], After(job.start, job.ops, j)))
  }

  lemma SmoothOneMore(job: Job, s0: System, k0: nat, i: nat, applied: seq<Operation>, recovered: bool)
    requires s0.run.Some? && Recorded(job, s0.run.value) && Shape(s0.run.value, k0) && k0 <= i < |job.ops|
    requires SmoothTo(job, s0, k0, i, applied)
    requires i == k0 ==> Ready(job, s0, k0) && (recovered <==> Recovers(job, s0, k0))
    requires i > k0 ==> Passes(job.ops[i], After(job.start, job.ops, i)) && !recovered
    ensures SmoothTo(job, s0, k0, i + 1, if recovered then applied else applied + [job.ops[i]])
  {
    hide Ready, Passes, After, Recorded, Shape;
    if i > k0 {
      assert job.ops[k0..i + 1] == job.ops[k0..i] + [job.ops[i]];
      assert job.ops[k0 + 1..i + 1] == job.ops[k0 + 1..i] + [job.ops[i]];
    }
  }

  lemma SmoothFinish(job: Job, s0: System, k0: nat, applied: seq<Operation>)
    requires s0.run.Some? && Recorded(job, s0.run.value) && Shape(s0.run.value, k0) && k0 <= |job.ops|
    requires SmoothTo(job, s0, k0, |job.ops|, applied)
    ensures Completable(job, s0, k0) && applied == Suffix(job, s0, k0)
  {
    hide Ready, Passes, After, Recorded, Shape;
  }

  /** One turn of the loop: skip what is completed already, process anything else. */
  method Turn(ghost job: Job, ops: seq<Operation>, i: nat, completed: set<OperationId>, journal: PublicationJournal,
              store: RemoteStore, event: string, fault: Fault, ghost trace: seq<System>, ghost k: nat)
    returns (advanced: bool, recovered: bool, ghost longer: seq<System>)
    requires At(job, journal, store, event, trace, Scanning(i)) && journal.active == event
    requires Publishable(job) && InvAt(job, Last(trace), k) && i <= k && i < |job.ops| && ops == job.ops
    requires ops[i].id in completed <==> i < k
    modifies journal`entries, store
    ensures At(job, journal, store, event, longer, if advanced then Scanning(i + 1) else Idle) && longer[0] == trace[0]
    ensures advanced ==> InvAt(job, Last(longer), if i < k then k else i + 1)
    ensures i < k ==> advanced && !recovered && Last(longer) == Last(trace).(phase := Scanning(i + 1))
    ensures i == k && fault.Smooth? ==>
      (advanced <==> Ready(job, Last(trace), k)) && store.inflight == old(store.inflight)
    ensures i == k ==> (recovered <==> Recovers(job, Last(trace), k))
    ensures OnlyRun(old(journal.entries), journal.entries, event)
    ensures i == k && advanced && i + 1 < |job.ops| ==>
      job.ops[i + 1].id in Last(longer).run.value.states && Last(longer).run.value.ops == job.ops
      && StateOf(Last(longer).run.value, i + 1) == OpState.Planned
  {
    hide Publishable, GateExact, PublisherCheck, AdapterAccepts, Postcondition, Effect, Fold, CommitsAt, RequestsAt,
         WorldAt, PhaseAt, Trace, Ready;
    InvHasShape(job, Last(trace), k);
    if ops[i].id in completed {
      ghost var t := View(journal, store, event, Scanning(i + 1));
      SkipStep(job, trace, t, i, k);
      return true, false, trace + [t];
    }
    ghost var run := journal.entries[event].run;
    advanced, recovered, longer := Advance(job, ops[i], i, journal, store, event, fault, trace, k);
    if i + 1 < |ops| {
      MarkedElsewhere(job, run, i, i + 1);
    }
  }

  /** `finalize` after the last operation. */
  method Finish(ghost job: Job, journal: PublicationJournal, store: RemoteStore, event: string, ghost trace: seq<System>)
    returns (ghost longer: seq<System>)
    requires At(job, journal, store, event, trace, Scanning(|job.ops|)) && journal.active == event
    requires InvAt(job, Last(trace), |job.ops|)
    modifies journal
    ensures At(job, journal, store, event, longer, Idle) && longer[0] == trace[0]
    ensures journal.entries[event].run.status == Completed && store.world == Fold(job.start, job.ops)
    ensures OnlyRun(old(journal.entries), journal.entries, event)
  {
    hide InvAt, Trace;
    FinalizeReady(job, Last(trace));
    var ok := journal.Finalize();
    ghost var t := View(journal, store, event, Idle);
    assert Finalize(job, Last(trace), t);
    Extend(job, trace, t);
    longer := trace + [t];
  }

  /** The publication loop, then `finalize`. `faults` decides what goes wrong at each operation. */
  method Drive(ghost job: Job, ops: seq<Operation>, completed: set<OperationId>, journal: PublicationJournal,
               store: RemoteStore, event: string, faults: nat -> Fault, ghost trace: seq<System>, ghost k0: nat)
    returns (outcome: Outcome, ghost longer: seq<System>)
    requires At(job, journal, store, event, trace, Scanning(0)) && journal.active == event
    requires Publishable(job) && InvAt(job, Last(trace), k0) && ops == job.ops
    requires completed == CompletedIds(journal.entries[event].run)
    modifies journal, store
    ensures At(job, journal, store, event, longer, Idle) && longer[0] == trace[0]
    ensures OnlyRun(old(journal.entries), journal.entries, event)
    ensures outcome.Published? ==>
      journal.entries[event].run.status == Completed && store.world == Fold(job.start, job.ops)
    ensures (forall i :: faults(i) == Smooth) ==>
      && (outcome.Published? <==> Completable(job, Last(trace), k0))
      && (outcome.Published? ==> outcome.applied == Suffix(job, Last(trace), k0))
  {
    hide Publishable, GateExact, PublisherCheck, AdapterAccepts, Postcondition, Effect, Fold, InvAt, Trace, Recorded,
         Shape, SmoothTo, Ready, Suffix, Recovers;
    ghost var s0, k := Last(trace), k0;
    InvHasShape(job, s0, k0);
    forall i | 0 <= i < |ops| ensures ops[i].id in completed <==> i < k0 {
      AppliedOnlyBefore(job, s0, k0, i);
    }
    SmoothStart(job, s0, k0);
    longer := trace;
    var applied: seq<Operation> := [];
    var i := 0;
    while i < |ops|
      invariant 0 <= i <= |ops| && k == (if i <= k0 then k0 else i)
      invariant At(job, journal, store, event, longer, Scanning(i)) && longer[0] == trace[0]
      invariant journal.active == event
      invariant OnlyRun(old(journal.entries), journal.entries, event)
      invariant InvAt(job, Last(longer), k)
      invariant i <= k0 ==> Last(longer) == s0.(phase := Scanning(i)) && applied == []
      invariant k0 < i < |ops| ==>
        Last(longer).run.Some? && Last(longer).run.value.ops == ops && ops[i].id in Last(longer).run.value.states
        && StateOf(Last(longer).run.value, i) == OpState.Planned
      invariant (forall j :: faults(j) == Smooth) ==> SmoothTo(job, s0, k0, i, applied)
    {
      ghost var s := Last(longer);
      InvHasShape(job, s, k);
      Frontier(job, s0, k0, s, i, k);
      var advanced, recovered;
      advanced, recovered, longer := Turn(job, ops, i, completed, journal, store, event, faults(i), longer, k);
      if !advanced {
        journal.Close();
        return Stopped, longer;
      }
      if i < k0 {
        SmoothSkip(job, s0, k0, i);
      } else {
        k := i + 1;
        if forall j :: faults(j) == Smooth {
          SmoothOneMore(job, s0, k0, i, applied, recovered);
        }
      }
      if ops[i].id !in completed && !recovered {
        applied := applied + [ops[i]];
      }
      i := i + 1;
    }
    InvHasShape(job, Last(longer), k);
    if forall j :: faults(j) == Smooth {
      SmoothFinish(job, s0, k0, applied);
    }
    longer := Finish(job, journal, store, event, longer);
    return Published(applied), longer;
  }

  lemma AppliedOnlyBefore(job: Job, s: System, k: nat, i: nat)
    requires InvAt(job, s, k) && i < |job.ops|
    ensures job.ops[i].id in CompletedIds(s.run.value) <==> i < k
  {
    InvHasShape(job, s, k);
    hide InvAt;
    assert job.ops[i].id in s.run.value.states;
    assert StateOf(s.run.value, i) == Applied <==> i < k;
  }

  lemma SkipStep(job: Job, trace: seq<System>, t: System, i: nat, k: nat)
    requires trace != [] && Trace(job, trace) && InvAt(job, Last(trace), k)
    requires Last(trace).phase == Scanning(i) && i < k && t == Last(trace).(phase := Scanning(i + 1))
    ensures Trace(job, trace + [t]) && Last(trace + [t]) == t && (trace + [t])[0] == trace[0] && InvAt(job, t, k)
  {
    hide Trace, Fold, Effect, PublisherCheck, InOrder, CommitsAt, RequestsAt, WorldAt;
    assert StateOf(Last(trace).run.value, i) == Applied;
    assert Skip(job, Last(trace), t, i);
    ExtendAt(job, trace, t, i);
    PhaseOnlyKeeps(job, Last(trace), t, k);
  }

  lemma FinalizeReady(job: Job, s: System)
    requires InvAt(job, s, |job.ops|)
    ensures s.run.Some? && AllApplied(s.run.value) && s.run.value.status != Failed
    ensures s.world == Fold(job.start, job.ops)
  {
    hide Fold, Effect, PublisherCheck, InOrder, CommitsAt, RequestsAt;
    assert job.ops[..|job.ops|] == job.ops;
    forall id | id in s.run.value.states ensures s.run.value.states[id] == Applied {
      var op :| op in job.ops && op.id == id;
      var i :| 0 <= i < |job.ops| && job.ops[i] == op;
      assert StateOf(s.run.value, i) == Applied;
    }
  }

  lemma SmoothStart(job: Job, s0: System, k0: nat)
    requires s0.run.Some? && Recorded(job, s0.run.value) && Shape(s0.run.value, k0)
    ensures SmoothTo(job, s0, k0, 0, [])
  {
  }

  lemma SmoothSkip(job: Job, s0: System, k0: nat, i: nat)
    requires s0.run.Some? && Recorded(job, s0.run.value) && Shape(s0.run.value, k0) && i < k0 && i < |job.ops|
    ensures SmoothTo(job, s0, k0, i + 1, [])
  {
  }

  // ----- publish -----

  /** The approved envelope; `hash` digests all of it. */
  datatype Envelope = Envelope(event: string, commit: string, snapshot: string, hash: string)

  /** The journal knows the approval event under exactly this envelope. */
  ghost predicate KnownAs(journal: PublicationJournal, envelope: Envelope)
    reads journal
  {
    envelope.event in journal.entries && journal.entries[envelope.event].digest == envelope.hash
  }

  /** The journal holds one more event, under the hash of its envelope, and is otherwise as it was. */
  ghost predicate NewlyKnown(before: map<string, Entry>, after: map<string, Entry>, envelope: Envelope) {
    && envelope.event !in before && envelope.event in after
    && after == before[envelope.event := Entry(envelope.hash, after[envelope.event].run)]
  }

  lemma ResumeKeeps(job: Job, s: System, k: nat)
    requires InvAt(job, s, k) && s.phase.Idle?
    ensures InvAt(job, s.(phase := Scanning(0)), k) && Next(job, s, s.(phase := Scanning(0)))
  {
    PhaseOnlyKeeps(job, s, s.(phase := Scanning(0)), k);
    hide InvAt;
  }

  lemma ResumableRun(job: Job, s: System, k: nat)
    requires InvAt(job, s, k)
    ensures s.run.Some? && s.run.value.status != Failed && s.run.value.ops == job.ops
    ensures s.run.value.status == Completed ==> AllApplied(s.run.value)
  {
    if s.run.value.status == Completed {
      FinalizeReady(job, s);
    }
  }

  /** Resumption from a recorded event. `k` is the journal's first operation not applied. */
  method PublishResumed(ghost job: Job, envelope: Envelope, run: Run, journal: PublicationJournal, store: RemoteStore,
                        faults: nat -> Fault, ghost k: nat)
    returns (outcome: Outcome, ghost trace: seq<System>)
    requires journal.active == envelope.event && envelope.event in journal.entries
    requires run == journal.entries[envelope.event].run
    requires Publishable(job) && InvAt(job, View(journal, store, envelope.event, Idle), k)
    modifies journal, store
    ensures At(job, journal, store, envelope.event, trace, Idle)
    ensures trace[0] == old(View(journal, store, envelope.event, Idle))
    ensures OnlyRun(old(journal.entries), journal.entries, envelope.event)
    ensures outcome.Published? ==>
      journal.entries[envelope.event].run.status == Completed && store.world == Fold(job.start, job.ops)
    ensures (forall i :: faults(i) == Smooth) ==>
      && (outcome.Published? <==> Completable(job, trace[0], k))
      && (outcome.Published? ==> outcome.applied == Suffix(job, trace[0], k))
  {
    ghost var s := View(journal, store, envelope.event, Idle);
    ghost var t := View(journal, store, envelope.event, Scanning(0));
    ResumeKeeps(job, s, k);
    ResumableRun(job, s, k);
    PhaseIrrelevant(job, s, t, k);
    hide Publishable, InvAt, Completable, Suffix, Next;
    Extend(job, [s], t);
    outcome, trace := Drive(job, run.ops, CompletedIds(run), journal, store, envelope.event, faults, [s] + [t], k);
  }

  lemma PhaseIrrelevant(job: Job, s: System, t: System, k: nat)
    requires InvAt(job, s, k) && t == s.(phase := t.phase)
    ensures Completable(job, s, k) == Completable(job, t, k) && Suffix(job, s, k) == Suffix(job, t, k)
  {
    hide Fold, Effect, PublisherCheck, AdapterAccepts, Postcondition, WorldAt, RequestsAt, CommitsAt;
  }

  /** A first publication: read the store, record the diff, drive it. */
  method PublishFresh(plan: Plan, snap: Snapshot, envelope: Envelope, journal: PublicationJournal, store: RemoteStore,
                      faults: nat -> Fault)
    returns (outcome: Outcome, ghost trace: seq<System>)
    requires WellReferenced(plan)
    requires envelope.event !in journal.entries
    requires store.world == Loaded(snap) && store.inflight == multiset{} && store.commits == []
    modifies journal, store
    ensures At(JobOf(plan, snap), journal, store, envelope.event, trace, Idle)
    ensures trace[0] == Publication.Initial(JobOf(plan, snap))
    ensures NewlyKnown(old(journal.entries), journal.entries, envelope)
    ensures outcome.Published? ==>
      && journal.entries[envelope.event].run.status == Completed
      && store.world == Fold(Loaded(snap), Diff(plan, snap))
    ensures (forall i :: faults(i) == Smooth) ==>
      && (outcome.Published? <==> EveryGuardPasses(plan, snap))
      && (outcome.Published? ==> outcome.applied == Diff(plan, snap))
  {
    hide Diff, Fold, Effect, OnlyRun, NewlyKnown, InvAt, Completable, Suffix, Publishable, PublisherCheck, AdapterAccepts, Postcondition;
    ghost var job := JobOf(plan, snap);
    DiffIsPublishable(plan, snap);
    ghost var s := Publication.Initial(job);
    var ops := PlanDiff.PlanDiff(plan, snap);
    var begun := journal.Begin(envelope.event, envelope.hash, ops);
    ghost var t := View(journal, store, envelope.event, Scanning(0));
    assert Begin(job, s, t);
    BeginKeeps(job, s, t);
    FreshCompletable(job, t);
    Extend(job, [s], t);
    ghost var begin := journal.entries;
    outcome, trace := Drive(job, ops, {}, journal, store, envelope.event, faults, [s] + [t], 0);
    BeganOnly(old(journal.entries), begin, journal.entries, envelope, FreshRun(ops));
  }

  lemma BeganOnly(before: map<string, Entry>, begin: map<string, Entry>, after: map<string, Entry>, envelope: Envelope, run: Run)
    requires envelope.event !in before && begin == before[envelope.event := Entry(envelope.hash, run)]
    requires OnlyRun(begin, after, envelope.event)
    ensures NewlyKnown(before, after, envelope)
  {
  }

  lemma FreshCompletable(job: Job, t: System)
    requires InvAt(job, t, 0) && t.world == job.start && t.run == Some(FreshRun(job.ops))
    ensures Completable(job, t, 0) <==>
      forall i :: 0 <= i < |job.ops| ==> Passes(job.ops[i], After(job.start, job.ops, i))
    ensures Suffix(job, t, 0) == job.ops
    ensures CompletedIds(t.run.value) == {}
  {
    hide Effect, PublisherCheck, AdapterAccepts, Postcondition, WorldAt, RequestsAt, CommitsAt;
    if job.ops != [] {
      assert job.ops[0] in job.ops;
      assert StateOf(t.run.value, 0) == OpState.Planned;
      assert t.world == After(job.start, job.ops, 0);
    }
  }

  /**
    `publish` with `apply`. Every execution, whatever goes wrong in it, is a run of the
    transition system from the state it found to the state it leaves. `k` is the first
    operation of a known event that is not applied.
   */
  method Publish(ghost job: Job, ghost k: nat, plan: Plan, snap: Snapshot, envelope: Envelope, journal: PublicationJournal,
                 store: RemoteStore, faults: nat -> Fault)
    returns (outcome: Outcome, ghost trace: seq<System>)
    requires Publishable(job)
    requires envelope.event in journal.entries ==> InvAt(job, View(journal, store, envelope.event, Idle), k)
    requires envelope.event !in journal.entries ==>
      && store.world.packages == snap.packages
      && WellReferenced(WithApprovedCommit(plan, envelope.commit))
      && job == JobOf(WithApprovedCommit(plan, envelope.commit), snap)
      && store.inflight == multiset{} && store.commits == []
    modifies journal, store
    ensures Trace(job, trace) && trace[0] == old(View(journal, store, envelope.event, Idle))
    ensures Last(trace) == View(journal, store, envelope.event, Idle)
    ensures envelope.event in journal.entries ==> exists later: nat :: InvAt(job, Last(trace), later)
    ensures envelope.event !in journal.entries ==> Last(trace) == trace[0]
    ensures outcome.Published? ==>
      && envelope.event in journal.entries && journal.entries[envelope.event].run.status == Completed
      && store.world == Fold(job.start, job.ops)
    ensures old(envelope.event in journal.entries && !KnownAs(journal, envelope)) ==>
      outcome.Stopped? && |trace| == 1 && journal.entries == old(journal.entries) && unchanged(store)
    ensures old(envelope.event !in journal.entries) && (snap.digest != envelope.snapshot || old(store.world.duplicates) != {}) ==>
      outcome.Stopped? && |trace| == 1 && journal.entries == old(journal.entries) && unchanged(store)
    ensures journal.active == ""
    ensures old(KnownAs(journal, envelope)) ==> OnlyRun(old(journal.entries), journal.entries, envelope.event)
    ensures old(envelope.event !in journal.entries) && snap.digest == envelope.snapshot && old(store.world.duplicates) == {} ==>
      NewlyKnown(old(journal.entries), journal.entries, envelope)
    ensures (forall i :: faults(i) == Smooth) && old(KnownAs(journal, envelope)) ==>
      && (outcome.Published? <==> Completable(job, trace[0], k))
      && (outcome.Published? ==> outcome.applied == Suffix(job, trace[0], k))
    ensures (forall i :: faults(i) == Smooth) && old(envelope.event !in journal.entries)
            && old(store.world.duplicates) == {} && snap.digest == envelope.snapshot ==>
      (outcome.Published? <==> EveryGuardPasses(WithApprovedCommit(plan, envelope.commit), snap))
      && (outcome.Published? ==> outcome.applied == job.ops)
  {
    hide Publishable, InvAt, Completable, Suffix, Next, Diff, EveryGuardPasses, WellReferenced, Fold;
    trace := [View(journal, store, envelope.event, Idle)];
    if envelope.event in journal.entries {
      ResumableRun(job, trace[0], k);
    }
    var resumed := journal.Resume(envelope.event, envelope.hash);
    if resumed.Err? {
      return Stopped, trace;
    }
    outcome := Stopped;
    if resumed.value.Some? {
      outcome, trace := PublishResumed(job, envelope, resumed.value.value, journal, store, faults, k);
    } else if store.world.duplicates == {} && snap.digest == envelope.snapshot {
      outcome, trace := PublishFresh(WithApprovedCommit(plan, envelope.commit), snap, envelope, journal, store, faults);
      assert Inv(job, trace[0]);
    }
    if envelope.event in journal.entries {
      assert Inv(job, trace[0]);
      RecordedRunKept(job, trace);
    }
    journal.Close();
  }

  /** A run that leads to a recorded publication leaves the invariant of the next call. */
  lemma RecordedRunKept(job: Job, trace: seq<System>)
    requires trace != [] && Publishable(job) && Trace(job, trace) && Inv(job, trace[0]) && Last(trace).run.Some?
    ensures exists k: nat :: InvAt(job, Last(trace), k)
  {
    hide Publishable, InvAt, Trace;
    TraceKeeps(job, trace, |trace| - 1);
  }
}