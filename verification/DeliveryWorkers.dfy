/** Any number of delivery workers against one ledger: what every interleaving keeps. */
module DeliveryWorkers {
  import opened Basics
  import opened Deliveries

  /**
    Where one execution stands. `Running` and `Stopping` have the effect in progress;
    `won` records that the completion was accepted. `Lost` is a worker that vanished.
   */
  datatype Phase =
    | Holding | Running | Stopping | Succeeded | Failed
    | Settled(won: bool) | Gone(won: bool) | Lost(won: bool)

  datatype Worker = Worker(key: string, mode: FailureMode, phase: Phase)

  /** Every claim starts one worker, named by the token of its claim. */
  datatype System = System(ledger: Ledger, workers: map<nat, Worker>)

  datatype LateCall = LateRenew(expires: int) | LateSettle(outcome: Delivery) | LateRelease

  datatype Step =
    | Acquire(key: string, now: int, expires: int)
    | Recover(key: string, expires: int)
    | CancelClaim(token: nat)
    | Start(token: nat)
    | Heartbeat(token: nat, expires: int)
    | Interrupt(token: nat)
    | EffectReturns(token: nat)
    | EffectRaises(token: nat)
    | Finish(token: nat)
    | GiveBack(token: nat, now: int)
    | SkipFinalization(token: nat)
    | Release(token: nat)
    | Crash(token: nat, unfenced: bool)
    | Late(token: nat, call: LateCall)

  predicate Active(p: Phase) {
    p.Holding? || p.Running? || p.Stopping? || p.Succeeded? || p.Failed?
  }

  predicate Effecting(p: Phase) {
    p.Running? || p.Stopping?
  }

  predicate Won(p: Phase) {
    (p.Settled? || p.Gone? || p.Lost?) && p.won
  }

  predicate Enabled(s: System, step: Step) {
    match step
    case Acquire(key, now, _) => Claimable(s.ledger, key, now)
    case Recover(key, _) => Recoverable(s.ledger, key)
    case _ =>
      step.token in s.workers &&
      var w := s.workers[step.token];
      match step
      case CancelClaim(_) => w.phase.Holding?
      case Start(_) => w.phase.Holding?
      case Heartbeat(_, _) => Effecting(w.phase) || w.phase.Succeeded? || w.phase.Failed? || w.phase.Settled?
      case Interrupt(_) => w.phase.Running?
      case EffectReturns(_) => Effecting(w.phase)
      case EffectRaises(_) => Effecting(w.phase)
      case Finish(_) => w.phase.Succeeded?
      case GiveBack(_, _) => w.phase.Failed?
      case SkipFinalization(_) => w.phase.Succeeded? || w.phase.Failed?
      case Release(_) => w.phase.Settled?
      case Crash(_, _) => Active(w.phase) || w.phase.Settled?
      case Late(token, call) => (w.phase.Gone? || w.phase.Lost?) && (call.LateRelease? || !Holds(s.ledger, w.key, token))
  }

  function At(s: System, token: nat, phase: Phase, ledger: Ledger): System
    requires token in s.workers
  {
    System(ledger, s.workers[token := s.workers[token].(phase := phase)])
  }

  function Apply(s: System, step: Step): System
    requires Enabled(s, step)
  {
    var l := s.ledger;
    match step
    case Acquire(key, _, expires) =>
      System(Grant(l, key, expires), s.workers[l.issued := Worker(key, ToRetry, Holding)])
    case Recover(key, expires) =>
      System(Grant(l, key, expires), s.workers[l.issued := Worker(key, ToDeadLetter, Holding)])
    case _ =>
      var t := step.token;
      var w := s.workers[t];
      match step
      case CancelClaim(_) => At(s, t, Failed, l)
      case Start(_) => At(s, t, Running, l)
      case Heartbeat(_, expires) =>
        At(s, t, if w.phase.Running? && !Holds(l, w.key, t) then Stopping else w.phase, Extended(l, w.key, t, expires))
      case Interrupt(_) => At(s, t, Stopping, l)
      case EffectReturns(_) => At(s, t, if w.phase.Running? then Succeeded else Failed, l)
      case EffectRaises(_) => At(s, t, Failed, l)
      case Finish(_) => At(s, t, Settled(Holds(l, w.key, t)), Settle(l, w.key, t, Finished))
      case GiveBack(_, now) =>
        At(s, t, Settled(false), Settle(l, w.key, t, if w.mode == ToDeadLetter then Dead else Retried(now, t)))
      case SkipFinalization(_) => At(s, t, Settled(false), l)
      case Release(_) => At(s, t, Gone(Won(w.phase)), Unfence(l, w.key, t))
      case Crash(_, unfenced) =>
        At(s, t, Lost(Won(w.phase)), if unfenced then Unfence(l, w.key, t) else l)
      case Late(_, call) => System(LateEffect(l, w.key, t, call), s.workers)
  }

  function LateEffect(l: Ledger, key: string, token: nat, call: LateCall): Ledger {
    match call
    case LateRenew(expires) => Extended(l, key, token, expires)
    case LateSettle(outcome) => Settle(l, key, token, outcome)
    case LateRelease => Unfence(l, key, token)
  }

  ghost predicate Trace(states: seq<System>, steps: seq<Step>) {
    && |states| == |steps| + 1
    && states[0] == System(Ledger(map[], map[], 0), map[])
    && forall i :: 0 <= i < |steps| ==> StepAt(states, steps, i)
  }

  ghost predicate StepAt(states: seq<System>, steps: seq<Step>, i: nat)
    requires i < |steps| < |states|
  {
    Enabled(states[i], steps[i]) && states[i + 1] == Apply(states[i], steps[i])
  }

  // ----- the invariant -----

  ghost predicate CompletedAt(s: System, key: string) {
    key in s.ledger.deliveries && s.ledger.deliveries[key].state == Completed
  }

  /** An active worker holds its key. A settled or vanished one may still own a fence, a gone one owns none. */
  ghost predicate WorkerOk(s: System, token: nat)
    requires token in s.workers
  {
    var w := s.workers[token];
    && token < s.ledger.issued
    && (Active(w.phase) ==> Holds(s.ledger, w.key, token))
    && (Won(w.phase) ==> w.key in s.ledger.deliveries && s.ledger.deliveries[w.key] == Finished)
    && (w.phase.Gone? ==> !(w.key in s.ledger.fences && s.ledger.fences[w.key] == token))
  }

  ghost predicate Winner(s: System, key: string, token: nat) {
    token in s.workers && s.workers[token].key == key && Won(s.workers[token].phase)
  }

  ghost predicate KeyOk(s: System, key: string) {
    && (key in s.ledger.fences ==>
          s.ledger.fences[key] in s.workers && s.workers[s.ledger.fences[key]].key == key)
    && (key in s.ledger.deliveries ==> DeliveryOk(s, key))
  }

  ghost predicate DeliveryOk(s: System, key: string)
    requires key in s.ledger.deliveries
  {
    var d := s.ledger.deliveries[key];
    && (d.state == Claimed ==> d.lease.Some?)
    && (d.state == Claimed ==> d.token.Some? && d.token.value < s.ledger.issued)
    && (d.state == Completed ==> d == Finished && exists token :: Winner(s, key, token))
  }

  ghost predicate UniqueWinners(s: System) {
    forall a, b, key :: Winner(s, key, a) && Winner(s, key, b) ==> a == b
  }

  ghost predicate Inv(s: System) {
    && (forall token :: token in s.workers ==> WorkerOk(s, token))
    && (forall key :: KeyOk(s, key))
    && UniqueWinners(s)
  }

  lemma GrantKeeps(s: System, key: string, expires: int, mode: FailureMode)
    requires Inv(s) && key !in s.ledger.fences
    requires key in s.ledger.deliveries ==> s.ledger.deliveries[key].state != Completed
    ensures Inv(System(Grant(s.ledger, key, expires), s.workers[s.ledger.issued := Worker(key, mode, Holding)]))
  {
    var token := s.ledger.issued;
    var after := System(Grant(s.ledger, key, expires), s.workers[token := Worker(key, mode, Holding)]);
    assert token in s.workers ==> WorkerOk(s, token);
    forall t | t in after.workers ensures WorkerOk(after, t) {
      if t != token { assert WorkerOk(s, t); }
    }
    forall k ensures KeyOk(after, k) {
      assert KeyOk(s, k);
      if k != key && k in s.ledger.deliveries && s.ledger.deliveries[k].state == Completed {
        var t :| Winner(s, k, t);
        assert Winner(after, k, t);
      }
    }
    forall a, b, k | Winner(after, k, a) && Winner(after, k, b) ensures a == b {
      assert Winner(s, k, a) && Winner(s, k, b);
    }
  }

  /** A step of one worker that leaves every other key and every other fence alone. */
  ghost predicate Local(s: System, after: System, token: nat, w: Worker) {
    && token in s.workers && s.workers[token].key == w.key
    && after.workers == s.workers[token := w]
    && after.ledger.issued == s.ledger.issued
    && (forall k :: k != w.key ==>
          && (k in s.ledger.deliveries <==> k in after.ledger.deliveries)
          && (k in s.ledger.deliveries ==> s.ledger.deliveries[k] == after.ledger.deliveries[k])
          && (k in s.ledger.fences <==> k in after.ledger.fences)
          && (k in s.ledger.fences ==> s.ledger.fences[k] == after.ledger.fences[k]))
    && (w.key in after.ledger.fences ==>
          w.key in s.ledger.fences && s.ledger.fences[w.key] == after.ledger.fences[w.key])
    && (w.key in s.ledger.fences && w.key !in after.ledger.fences ==> s.ledger.fences[w.key] == token)
    && (after.ledger.deliveries == s.ledger.deliveries || Holds(s.ledger, w.key, token))
  }

  ghost predicate FinishedBy(s: System, after: System, key: string, token: nat) {
    Holds(s.ledger, key, token) && key in after.ledger.deliveries && after.ledger.deliveries[key] == Finished
  }

  lemma LocalKeeps(s: System, after: System, token: nat, w: Worker)
    requires Inv(s) && Local(s, after, token, w)
    requires WorkerOk(after, token)
    requires w.key in after.ledger.deliveries ==> DeliveryOk(after, w.key)
    requires Won(w.phase) <==> Won(s.workers[token].phase) || FinishedBy(s, after, w.key, token)
    ensures Inv(after)
  {
    assert WorkerOk(s, token);
    forall t | t in after.workers ensures WorkerOk(after, t) {
      if t != token {
        assert WorkerOk(s, t);
      }
    }
    forall k ensures KeyOk(after, k) {
      assert KeyOk(s, k);
      if k != w.key && k in s.ledger.deliveries && s.ledger.deliveries[k].state == Completed {
        var t :| Winner(s, k, t);
        assert Winner(after, k, t);
      }
    }
    forall a, b, k | Winner(after, k, a) && Winner(after, k, b) ensures a == b {
      if Holds(s.ledger, w.key, token) && k == w.key {
        assert forall t :: t in s.workers ==> WorkerOk(s, t);
      } else {
        assert Winner(s, k, a) && Winner(s, k, b);
      }
    }
  }

  /** The completed key of a worker keeps its winner through a step that changes no winner. */
  lemma WinnerKept(s: System, after: System, token: nat)
    requires Inv(s) && token in s.workers && after.workers.Keys == s.workers.Keys
    requires forall t :: t in s.workers ==>
      after.workers[t].key == s.workers[t].key && (Won(s.workers[t].phase) ==> Won(after.workers[t].phase))
    ensures var key := s.workers[token].key;
      CompletedAt(s, key) ==> s.ledger.deliveries[key] == Finished && exists t :: Winner(after, key, t)
  {
    var key := s.workers[token].key;
    assert KeyOk(s, key);
    if CompletedAt(s, key) {
      var t :| Winner(s, key, t);
      assert Winner(after, key, t);
    }
  }

  lemma QuietKeeps(s: System, token: nat, phase: Phase)
    requires Inv(s) && token in s.workers
    requires (Active(phase) ==> Active(s.workers[token].phase)) && (Won(phase) <==> Won(s.workers[token].phase))
    requires phase.Gone? ==> s.workers[token].phase.Gone?
    ensures Inv(At(s, token, phase, s.ledger))
  {
    var after := At(s, token, phase, s.ledger);
    assert WorkerOk(s, token) && KeyOk(s, s.workers[token].key);
    WinnerKept(s, after, token);
    LocalKeeps(s, after, token, after.workers[token]);
  }

  lemma ExtendKeeps(s: System, token: nat, phase: Phase, expires: int)
    requires Inv(s) && token in s.workers
    requires (Active(phase) ==> Active(s.workers[token].phase)) && (Won(phase) <==> Won(s.workers[token].phase))
    requires phase.Gone? ==> s.workers[token].phase.Gone?
    ensures Inv(At(s, token, phase, Extended(s.ledger, s.workers[token].key, token, expires)))
  {
    var after := At(s, token, phase, Extended(s.ledger, s.workers[token].key, token, expires));
    assert WorkerOk(s, token) && KeyOk(s, s.workers[token].key);
    WinnerKept(s, after, token);
    LocalKeeps(s, after, token, after.workers[token]);
  }

  lemma UnfenceKeeps(s: System, token: nat, phase: Phase)
    requires Inv(s) && token in s.workers
    requires !Active(phase) && (Won(phase) <==> Won(s.workers[token].phase))
    ensures Inv(At(s, token, phase, Unfence(s.ledger, s.workers[token].key, token)))
  {
    var after := At(s, token, phase, Unfence(s.ledger, s.workers[token].key, token));
    assert WorkerOk(s, token) && KeyOk(s, s.workers[token].key);
    WinnerKept(s, after, token);
    LocalKeeps(s, after, token, after.workers[token]);
  }

  lemma SettleKeeps(s: System, token: nat, won: bool, outcome: Delivery)
    requires Inv(s) && token in s.workers && Active(s.workers[token].phase)
    requires won <==> outcome == Finished
    requires outcome == Finished || outcome == Dead
          || (outcome.state == Claimed && outcome.lease.Some? && outcome.token == Some(token))
    ensures Inv(At(s, token, Settled(won), Settle(s.ledger, s.workers[token].key, token, outcome)))
  {
    var key := s.workers[token].key;
    var after := At(s, token, Settled(won), Settle(s.ledger, key, token, outcome));
    assert WorkerOk(s, token) && KeyOk(s, key);
    if won {
      assert Winner(after, key, token);
    }
    LocalKeeps(s, after, token, after.workers[token]);
  }

  lemma LateKeeps(s: System, token: nat, call: LateCall)
    requires Inv(s) && Enabled(s, Late(token, call))
    ensures Inv(Apply(s, Late(token, call)))
  {
    var w := s.workers[token];
    assert s.workers[token := w] == s.workers;
    if call.LateRelease? {
      UnfenceKeeps(s, token, w.phase);
    }
  }

  lemma ApplyKeeps(s: System, step: Step)
    requires Inv(s) && Enabled(s, step)
    ensures Inv(Apply(s, step))
  {
    hide Inv, WorkerOk, KeyOk, UniqueWinners, Settle, Unfence, Extended, Grant;
    match step
    case Acquire(key, now, expires) => GrantKeeps(s, key, expires, ToRetry);
    case Recover(key, expires) => GrantKeeps(s, key, expires, ToDeadLetter);
    case Heartbeat(t, expires) =>
      ExtendKeeps(s, t, Apply(s, step).workers[t].phase, expires);
    case Finish(t) =>
      ActiveHolds(s, t);
      SettleKeeps(s, t, true, Finished);
    case GiveBack(t, now) =>
      SettleKeeps(s, t, false, if s.workers[t].mode == ToDeadLetter then Dead else Retried(now, t));
    case Release(t) => UnfenceKeeps(s, t, Gone(Won(s.workers[t].phase)));
    case Crash(t, unfenced) =>
      if unfenced {
        UnfenceKeeps(s, t, Lost(Won(s.workers[t].phase)));
      } else {
        QuietKeeps(s, t, Lost(Won(s.workers[t].phase)));
      }
    case Late(t, call) => LateKeeps(s, t, call);
    case CancelClaim(t) => QuietKeeps(s, t, Failed);
    case Start(t) => QuietKeeps(s, t, Running);
    case Interrupt(t) => QuietKeeps(s, t, Stopping);
    case EffectReturns(t) => QuietKeeps(s, t, if s.workers[t].phase.Running? then Succeeded else Failed);
    case EffectRaises(t) => QuietKeeps(s, t, Failed);
    case SkipFinalization(t) => QuietKeeps(s, t, Settled(false));
  }

  lemma ActiveHolds(s: System, token: nat)
    requires Inv(s) && token in s.workers && Active(s.workers[token].phase)
    ensures Holds(s.ledger, s.workers[token].key, token)
  {
    assert WorkerOk(s, token);
  }

  lemma {:induction false} TraceKeeps(states: seq<System>, steps: seq<Step>, i: nat)
    requires Trace(states, steps) && i < |states|
    ensures Inv(states[i])
  {
    if i > 0 {
      TraceKeeps(states, steps, i - 1);
      assert StepAt(states, steps, i - 1);
      ApplyKeeps(states[i - 1], steps[i - 1]);
    }
  }

  // ----- theorems -----

  /**
    Mutual exclusion: at any moment of any run, at most one effect per key is in progress,
    and the worker running it holds the claim and the fence.
   */
  lemma MutualExclusion(states: seq<System>, steps: seq<Step>, i: nat, a: nat, b: nat)
    requires Trace(states, steps) && i < |states|
    requires a in states[i].workers && Effecting(states[i].workers[a].phase)
    requires b in states[i].workers && Effecting(states[i].workers[b].phase)
    requires states[i].workers[a].key == states[i].workers[b].key
    ensures a == b && Holds(states[i].ledger, states[i].workers[a].key, a)
  {
    TraceKeeps(states, steps, i);
    assert WorkerOk(states[i], a) && WorkerOk(states[i], b);
  }

  /** A late call of a token that does not hold its key. */
  lemma StaleCall(l: Ledger, key: string, token: nat, call: LateCall)
    requires !Holds(l, key, token) && !(key in l.fences && l.fences[key] == token)
    ensures LateEffect(l, key, token, call) == l
  {
  }

  /** Once a second worker was granted the key, every call with the first worker's token changes nothing at all. */
  lemma SupersededTokenIsStale(states: seq<System>, steps: seq<Step>, i: nat, a: nat, b: nat)
    requires Trace(states, steps) && i < |states|
    requires a in states[i].workers && b in states[i].workers && a != b
    requires states[i].workers[a].key == states[i].workers[b].key && Active(states[i].workers[b].phase)
    ensures !Holds(states[i].ledger, states[i].workers[a].key, a) && !Active(states[i].workers[a].phase)
    ensures forall call :: LateEffect(states[i].ledger, states[i].workers[a].key, a, call) == states[i].ledger
  {
    TraceKeeps(states, steps, i);
    assert WorkerOk(states[i], a) && WorkerOk(states[i], b);
    forall call ensures LateEffect(states[i].ledger, states[i].workers[a].key, a, call) == states[i].ledger {
      StaleCall(states[i].ledger, states[i].workers[a].key, a, call);
    }
  }

  lemma CompletedStays(s: System, step: Step, key: string)
    requires Inv(s) && Enabled(s, step) && CompletedAt(s, key)
    ensures CompletedAt(Apply(s, step), key)
  {
    assert KeyOk(s, key);
    if !step.Acquire? && !step.Recover? {
      assert WorkerOk(s, step.token);
    }
  }

  /** After a completion the key stays completed and no worker holds it or runs its effect, ever. */
  lemma {:induction false} CompletedIsFinal(states: seq<System>, steps: seq<Step>, i: nat, j: nat, key: string)
    requires Trace(states, steps) && i <= j < |states| && CompletedAt(states[i], key)
    ensures CompletedAt(states[j], key)
    ensures forall t :: t in states[j].workers && states[j].workers[t].key == key ==> !Active(states[j].workers[t].phase)
  {
    if i < j {
      CompletedIsFinal(states, steps, i, j - 1, key);
      TraceKeeps(states, steps, j - 1);
      assert StepAt(states, steps, j - 1);
      CompletedStays(states[j - 1], steps[j - 1], key);
    }
    TraceKeeps(states, steps, j);
    forall t | t in states[j].workers && states[j].workers[t].key == key
      ensures !Active(states[j].workers[t].phase)
    {
      assert WorkerOk(states[j], t);
    }
  }

  /** A key is completed exactly when one worker won it, and that worker is the only one. */
  lemma CompletedExactlyOnce(states: seq<System>, steps: seq<Step>, i: nat, key: string)
    requires Trace(states, steps) && i < |states|
    ensures CompletedAt(states[i], key) <==> exists t :: Winner(states[i], key, t)
    ensures forall a, b :: Winner(states[i], key, a) && Winner(states[i], key, b) ==> a == b
  {
    TraceKeeps(states, steps, i);
    assert KeyOk(states[i], key);
    forall t | Winner(states[i], key, t) ensures CompletedAt(states[i], key) {
      assert WorkerOk(states[i], t);
    }
  }

  /** A completion is accepted only from a worker whose own effect had just returned. */
  lemma CompletionFollowsEffect(states: seq<System>, steps: seq<Step>, i: nat, key: string)
    requires Trace(states, steps) && i < |steps|
    requires !CompletedAt(states[i], key) && CompletedAt(states[i + 1], key)
    ensures steps[i].Finish? && steps[i].token in states[i].workers
    ensures states[i].workers[steps[i].token] == Worker(key, states[i].workers[steps[i].token].mode, Succeeded)
  {
    TraceKeeps(states, steps, i);
    TraceKeeps(states, steps, i + 1);
    assert StepAt(states, steps, i);
    assert KeyOk(states[i + 1], key);
    var t :| Winner(states[i + 1], key, t);
    assert t in states[i].workers ==> WorkerOk(states[i], t);
  }

  predicate Expired(lease: Option<int>, now: int) {
    lease.Some? ==> lease.value <= now
  }

  /** When every worker of a key has left in order, its delivery is terminal or can be claimed again at lease end. */
  lemma IdleKeyReclaimable(states: seq<System>, steps: seq<Step>, i: nat, key: string, now: int)
    requires Trace(states, steps) && i < |states|
    requires forall t :: t in states[i].workers && states[i].workers[t].key == key ==> states[i].workers[t].phase.Gone?
    ensures var l := states[i].ledger;
      Claimable(l, key, now) <==>
      (key in l.deliveries ==> l.deliveries[key].state == Claimed && Expired(l.deliveries[key].lease, now))
    ensures var l := states[i].ledger;
      Recoverable(l, key) <==> key in l.deliveries && l.deliveries[key].state == DeadLetter
  {
    TraceKeeps(states, steps, i);
    assert KeyOk(states[i], key);
    assert forall t :: t in states[i].workers ==> WorkerOk(states[i], t);
  }
}
