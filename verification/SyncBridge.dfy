/** Awaiting a synchronous call that runs in a thread, while its caller may be cancelled at any moment. */
module SyncBridge {
  import opened Basics

  datatype Thread<R> = Busy | Returned(value: R) | Raised

  /**
    What can happen, in any order and any number of times: the caller is cancelled, the thread
    ends, the worker task is resumed and collects how the thread ended, the worker task itself is
    cancelled, the caller is resumed.
   */
  datatype Signal<R> = Cancel | ThreadReturns(value: R) | ThreadRaises | Collect | StopTask | Wake

  /** The worker task: it ends by collecting the thread's result, or is stopped before it does. */
  datatype Task = Pending | Ended | Stopped

  /** The state of the thread; only its first end counts. */
  function ThreadAfter<R>(signals: seq<Signal<R>>): Thread<R> {
    if signals == [] then Busy else
      var earlier := ThreadAfter(signals[..|signals| - 1]);
      match signals[|signals| - 1]
      case ThreadReturns(value) => if earlier.Busy? then Returned(value) else earlier
      case ThreadRaises => if earlier.Busy? then Raised else earlier
      case _ => earlier
  }

  /** A thread that runs on cannot be collected; a thread that ended is lost if the task is stopped first. */
  function TaskAfter<R>(signals: seq<Signal<R>>): Task {
    if signals == [] then Pending else
      var earlier := TaskAfter(signals[..|signals| - 1]);
      match signals[|signals| - 1]
      case Collect =>
        if earlier.Pending? && !ThreadAfter(signals[..|signals| - 1]).Busy? then Ended else earlier
      case StopTask => if earlier.Pending? then Stopped else earlier
      case _ => earlier
  }

  /** The worker task was cancelled before it collected the thread's result. */
  predicate StoppedIn<R>(signals: seq<Signal<R>>) {
    TaskAfter(signals).Stopped?
  }

  predicate CancelledIn<R>(signals: seq<Signal<R>>) {
    exists i :: 0 <= i < |signals| && signals[i].Cancel?
  }

  /** The caller is resumed while there is nothing to report yet. */
  ghost predicate IdleWake<R>(signals: seq<Signal<R>>, i: nat)
    requires i < |signals|
  {
    signals[i].Wake? ==> TaskAfter(signals[..i]).Pending?
  }

  /** How the awaiting loop ends. `Abandoned`: the worker task was cancelled under it. */
  datatype Ending<R> = Got(value: R) | Failed | Abandoned

  lemma ThreadStep<R>(signals: seq<Signal<R>>, n: nat)
    requires n < |signals|
    ensures signals[..n + 1][..n] == signals[..n] && signals[..n + 1][n] == signals[n]
    ensures CancelledIn(signals[..n + 1]) <==> CancelledIn(signals[..n]) || signals[n].Cancel?
  {
    var more := signals[..n + 1];
    assert more[..n] == signals[..n];
    if i :| 0 <= i < n && signals[..n][i].Cancel? {
      assert more[i].Cancel?;
    }
    if i :| 0 <= i < n + 1 && more[i].Cancel? {
      assert i < n ==> signals[..n][i].Cancel?;
    }
    assert signals[n].Cancel? ==> more[n].Cancel?;
  }

  lemma {:induction false} EndSticks<R>(signals: seq<Signal<R>>, n: nat)
    requires n <= |signals| && !ThreadAfter(signals[..n]).Busy?
    ensures ThreadAfter(signals) == ThreadAfter(signals[..n])
    decreases |signals|
  {
    if n < |signals| {
      assert signals[..|signals| - 1][..n] == signals[..n];
      EndSticks(signals[..|signals| - 1], n);
    } else {
      assert signals[..n] == signals;
    }
  }

  /** The awaiting loop that both bridges open with: shield the worker, remember cancellations, go on. */
  method AwaitWorker<R>(signals: seq<Signal<R>>) returns (ending: Option<Ending<R>>, requested: bool, used: nat)
    ensures used <= |signals|
    ensures ending.Some? ==> var seen := signals[..used];
      && (ending.value.Abandoned? <==> StoppedIn(seen))
      && (!StoppedIn(seen) ==>
            ThreadAfter(seen) == if ending.value.Got? then Returned(ending.value.value) else Raised)
      && (!StoppedIn(seen) ==> (requested <==> CancelledIn(seen)))
    ensures ending.None? ==> used == |signals| && forall i :: 0 <= i < |signals| ==> IdleWake(signals, i)
  {
    hide CancelledIn;
    var thread: Thread<R> := Busy;
    var task, interrupted := Pending, false;
    requested, used := false, 0;
    NothingCancelled<R>();
    while used < |signals|
      invariant used <= |signals|
      invariant thread == ThreadAfter(signals[..used]) && task == TaskAfter(signals[..used])
      invariant task.Ended? ==> !thread.Busy?
      invariant requested || interrupted <==> CancelledIn(signals[..used])
      invariant forall i :: 0 <= i < used ==> IdleWake(signals, i)
    {
      ThreadStep(signals, used);
      var signal := signals[used];
      used := used + 1;
      match signal
      case Cancel => interrupted := true;
      case ThreadReturns(value) => if thread.Busy? { thread := Returned(value); }
      case ThreadRaises => if thread.Busy? { thread := Raised; }
      case Collect => if task.Pending? && !thread.Busy? { task := Ended; }
      case StopTask => if task.Pending? { task := Stopped; }
      case Wake =>
        if interrupted || task.Stopped? {
          requested, interrupted := true, false;
          if task.Stopped? {
            return Some(Abandoned), requested, used;
          }
        }
        if task.Ended? {
          return Some(if thread.Returned? then Got(thread.value) else Failed), requested, used;
        }
    }
    return None, requested, used;
  }

  lemma NothingCancelled<R>()
    ensures !CancelledIn<R>([])
  {
  }

  datatype SyncOutcome<R> = Value(value: R) | Failure | Cancelled

  /**
    `run_sync_to_completion`: the call is never left running behind its caller's back, unless
    the worker task itself is cancelled; a cancellation is delayed until the thread has ended.
   */
  method RunToCompletion<R>(signals: seq<Signal<R>>) returns (outcome: Option<SyncOutcome<R>>, used: nat)
    ensures used <= |signals|
    ensures outcome.Some? && !StoppedIn(signals[..used]) ==> var thread := ThreadAfter(signals[..used]);
      && !thread.Busy?
      && (outcome.value.Failure? <==> thread.Raised?)
      && (outcome.value.Cancelled? <==> thread.Returned? && CancelledIn(signals[..used]))
      && (outcome.value.Value? ==> thread == Returned(outcome.value.value))
    ensures outcome.Some? && StoppedIn(signals[..used]) ==> outcome.value.Cancelled?
    ensures outcome.None? ==> used == |signals| && forall i :: 0 <= i < |signals| ==> IdleWake(signals, i)
  {
    hide CancelledIn, StoppedIn, ThreadAfter;
    var ending, requested;
    ending, requested, used := AwaitWorker(signals);
    if ending.None? {
      return None, used;
    }
    match ending.value
    case Abandoned => return Some(Cancelled), used;
    case Failed => return Some(Failure), used;
    case Got(value) => return Some(if requested then Cancelled else Value(value)), used;
  }

  /** What a caller of `acquire_sync_owned` receives. */
  datatype Handover<T> = Delivered(owned: T) | GivenUp | AcquisitionFailed

  /** The acquired value went to the caller, or to the cleanup, and to one of them only. */
  predicate OwnedOnce<T(==)>(value: T, handover: Handover<T>, cleaned: seq<T>) {
    (handover == Delivered(value) && cleaned == []) || (handover == GivenUp && cleaned == [value])
  }

  /**
    `acquire_sync_owned`. `signals` reach the acquisition, `cleanupSignals` the cleanup call,
    which may fail or be cancelled in turn. Whatever happens, a value the thread acquires is
    handed over or cleaned up exactly once if and only if the worker task was not cancelled
    under the wait; nothing that was not acquired is ever cleaned up.
   */
  method AcquireOwned<T(==)>(signals: seq<Signal<T>>, cleanupSignals: seq<Signal<()>>)
    returns (handover: Option<Handover<T>>, cleaned: seq<T>, used: nat, cleanupUsed: nat)
    ensures used <= |signals| && cleanupUsed <= |cleanupSignals|
    ensures handover.Some? && ThreadAfter(signals).Returned? ==>
      (OwnedOnce(ThreadAfter(signals).value, handover.value, cleaned) <==> !StoppedIn(signals[..used]))
    ensures forall value :: value in cleaned ==> ThreadAfter(signals) == Returned(value)
    ensures |cleaned| <= 1
    ensures handover.Some? && handover.value.Delivered? ==>
      ThreadAfter(signals) == Returned(handover.value.owned) && !CancelledIn(signals[..used])
    ensures handover == Some(AcquisitionFailed) ==> ThreadAfter(signals).Raised? && cleaned == []
    ensures handover == Some(GivenUp) && cleaned != [] && !StoppedIn(cleanupSignals[..cleanupUsed]) ==>
      CancelledIn(signals[..used]) && !ThreadAfter(cleanupSignals[..cleanupUsed]).Busy?
    ensures handover.None? && cleaned == [] ==> forall i :: 0 <= i < |signals| ==> IdleWake(signals, i)
    ensures handover.None? && cleaned != [] ==> forall i :: 0 <= i < |cleanupSignals| ==> IdleWake(cleanupSignals, i)
  {
    hide CancelledIn, StoppedIn, ThreadAfter;
    var ending, requested;
    cleaned, cleanupUsed := [], 0;
    ending, requested, used := AwaitWorker(signals);
    if ending.None? {
      return None, [], used, 0;
    }
    if !ending.value.Abandoned? {
      EndSticks(signals, used);
    }
    match ending.value
    case Abandoned => return Some(GivenUp), [], used, 0;
    case Failed => return Some(AcquisitionFailed), [], used, 0;
    case Got(value) =>
      if !requested {
        return Some(Delivered(value)), [], used, 0;
      }
      var outcome;
      outcome, cleanupUsed := RunToCompletion(cleanupSignals);
      return if outcome.Some? then Some(GivenUp) else None, [value], used, cleanupUsed;
  }
}
