/** The durable publication journal and the remote store, as the objects the publisher drives. */
module Journal {
  import opened Basics
  import opened Operations
  import opened Publication

  datatype JournalError = EnvelopeMismatch | TerminallyFailed | IncompleteCompletion

  /** A recorded publication and the hash of the envelope it was approved with. */
  datatype Entry = Entry(digest: string, run: Run)

  function CompletedIds(run: Run): set<OperationId> {
    set id | id in run.states && run.states[id] == Applied
  }

  class PublicationJournal {
    /** Keyed by approval event. */
    var entries: map<string, Entry>
    var active: string

    constructor ()
      ensures entries == map[] && active == ""
    {
      entries, active := map[], "";
    }

    /** The recorded operations of an event, or nothing when it was never begun. */
    method Resume(event: string, digest: string) returns (r: Result<Option<Run>, JournalError>)
      modifies this
      ensures entries == old(entries)
      ensures r == if event !in entries then Ok(None)
                   else if entries[event].digest != digest then Err(EnvelopeMismatch)
                   else if entries[event].run.status == Failed then Err(TerminallyFailed)
                   else if entries[event].run.status == Completed && !AllApplied(entries[event].run)
                     then Err(IncompleteCompletion)
                   else Ok(Some(entries[event].run))
      ensures active == if r.Ok? then event else ""
    {
      active := event;
      if event !in entries {
        return Ok(None);
      }
      var entry := entries[event];
      var error := None;
      if entry.digest != digest {
        error := Some(EnvelopeMismatch);
      } else if entry.run.status == Failed {
        error := Some(TerminallyFailed);
      } else if entry.run.status == Completed
             && exists id | id in entry.run.states :: entry.run.states[id] != Applied {
        error := Some(IncompleteCompletion);
      }
      if error.Some? {
        Close();
        return Err(error.value);
      }
      return Ok(Some(entry.run));
    }

    /** Records a new publication with every operation planned; a known event is resumed instead. */
    method Begin(event: string, digest: string, ops: seq<Operation>) returns (r: Result<Run, JournalError>)
      modifies this
      ensures old(event !in entries) ==>
        r == Ok(FreshRun(ops)) && entries == old(entries)[event := Entry(digest, FreshRun(ops))]
      ensures old(event in entries) ==> entries == old(entries)
      ensures old(event in entries) ==>
        r == (if entries[event].digest != digest then Err(EnvelopeMismatch)
              else if entries[event].run.status == Failed then Err(TerminallyFailed)
              else if entries[event].run.status == Completed && !AllApplied(entries[event].run)
                then Err(IncompleteCompletion)
              else Ok(entries[event].run))
      ensures active == if r.Ok? then event else ""
    {
      if event in entries {
        var resumed := Resume(event, digest);
        if resumed.Err? {
          return Err(resumed.error);
        }
        return Ok(resumed.value.value);
      }
      entries := entries[event := Entry(digest, FreshRun(ops))];
      active := event;
      return Ok(FreshRun(ops));
    }

    ghost predicate Knows(op: Operation)
      reads this
    {
      active in entries && op.id in entries[active].run.states
    }

    ghost function Marked(op: Operation, state: OpState): map<string, Entry>
      requires Knows(op)
      reads this
    {
      entries[active := Entry(entries[active].digest, Mark(entries[active].run, op, state))]
    }

    /** A guarded update: it succeeds only from one of the states `from`. */
    method Transition(op: Operation, from: set<OpState>, state: OpState) returns (ok: bool)
      modifies this`entries
      ensures ok <==> old(Knows(op) && entries[active].run.states[op.id] in from)
      ensures entries == if ok then old(Marked(op, state)) else old(entries)
    {
      if active in entries && op.id in entries[active].run.states && entries[active].run.states[op.id] in from {
        entries := entries[active := Entry(entries[active].digest, Mark(entries[active].run, op, state))];
        return true;
      }
      return false;
    }

    method Intent(op: Operation) returns (ok: bool)
      modifies this`entries
      ensures ok <==> old(Knows(op) && entries[active].run.states[op.id] in {OpState.Planned, Retryable})
      ensures entries == if ok then old(Marked(op, OpState.Intent)) else old(entries)
    {
      ok := Transition(op, {OpState.Planned, Retryable}, OpState.Intent);
    }

    method Outcome(op: Operation) returns (ok: bool)
      modifies this`entries
      ensures ok <==> old(Knows(op) && entries[active].run.states[op.id] in {OpState.Intent, Retryable, Ambiguous})
      ensures entries == if ok then old(Marked(op, Applied)) else old(entries)
    {
      ok := Transition(op, {OpState.Intent, Retryable, Ambiguous}, Applied);
    }

    method Failure(op: Operation, ambiguous: bool) returns (ok: bool)
      modifies this`entries
      ensures ok <==> old(Knows(op) && entries[active].run.states[op.id] == OpState.Intent)
      ensures entries == if ok then old(Marked(op, if ambiguous then Ambiguous else Retryable)) else old(entries)
    {
      ok := Transition(op, {OpState.Intent}, if ambiguous then Ambiguous else Retryable);
    }

    /** Completes the active publication if every operation is applied; ends the session. */
    method Finalize() returns (ok: bool)
      requires active in entries
      modifies this
      ensures ok <==> old(entries[active].run.status != Failed && AllApplied(entries[active].run))
      ensures ok ==> entries == old(entries[active := Entry(entries[active].digest,
                                                            entries[active].run.(status := Completed))])
      ensures !ok ==> entries == old(entries)
      ensures ok ==> active == ""
    {
      var entry := entries[active];
      ok := entry.run.status != Failed && forall id | id in entry.run.states :: entry.run.states[id] == Applied;
      if ok {
        entries := entries[active := Entry(entry.digest, entry.run.(status := Completed))];
        Close();
      }
    }

    method Close()
      modifies this`active
      ensures active == ""
    {
      active := "";
    }
  }

  /** What becomes of a request that was sent, and how the adapter reports it. */
  datatype Fate = Arrives | Travels | Vanishes

  datatype Fault =
    | Smooth
    | DiesBeforeIntent
    | DiesAfterIntent
    | FailsEarly
    | Trouble(fate: Fate, report: Report)

  datatype Report = Acknowledged | PlainError | AmbiguousError | Died

  class RemoteStore {
    var world: World
    /** Ordinals of the requests still travelling; a re-sent request travels beside the first one. */
    var inflight: multiset<nat>
    ghost var commits: seq<nat>

    constructor (world: World)
      ensures this.world == world && inflight == multiset{} && commits == []
    {
      this.world := world;
      inflight, commits := multiset{}, [];
    }

    /** One commit request; it arrives at once, keeps travelling, or vanishes. */
    method Request(ordinal: nat, op: Operation, fate: Fate)
      modifies this
      ensures inflight == if fate == Travels then old(inflight) + multiset{ordinal} else old(inflight)
      ensures world == if fate == Arrives then Effect(op, old(world)) else old(world)
      ensures commits == if fate == Arrives then old(commits) + [ordinal] else old(commits)
    {
      inflight := inflight + multiset{ordinal};
      if fate == Arrives {
        world := Effect(op, world);
        commits := commits + [ordinal];
      }
      if fate != Travels {
        inflight := inflight - multiset{ordinal};
      }
    }
  }
}
