/** Leased, fenced delivery claims, and one worker driving a claim to its end. */
module Deliveries {
  import opened Basics

  datatype DeliveryState = Claimed | Completed | DeadLetter

  datatype Delivery = Delivery(state: DeliveryState, lease: Option<int>, token: Option<nat>)

  /** `issued` counts the tokens handed out; a fresh token is the next number. */
  datatype Ledger = Ledger(deliveries: map<string, Delivery>, fences: map<string, nat>, issued: nat)

  datatype DeliveryClaim = DeliveryClaim(acquired: bool, state: DeliveryState, lease: Option<int>, token: Option<nat>)

  // ----- what each call does to the ledger -----

  /** The token is the current claim of the key and holds its fence. */
  predicate Holds(l: Ledger, key: string, token: nat) {
    && key in l.deliveries && l.deliveries[key].state == Claimed && l.deliveries[key].token == Some(token)
    && key in l.fences && l.fences[key] == token
  }

  predicate Claimable(l: Ledger, key: string, now: int) {
    && key !in l.fences
    && (key in l.deliveries ==>
          l.deliveries[key].state == Claimed && l.deliveries[key].lease.Some? && l.deliveries[key].lease.value <= now)
  }

  function Grant(l: Ledger, key: string, expires: int): Ledger {
    Ledger(l.deliveries[key := Delivery(Claimed, Some(expires), Some(l.issued))], l.fences[key := l.issued], l.issued + 1)
  }

  function Unfence(l: Ledger, key: string, token: nat): Ledger {
    if key in l.fences && l.fences[key] == token then l.(fences := l.fences - {key}) else l
  }

  /** A finalization: refused unless the token holds the key, otherwise it also drops the fence. */
  function Settle(l: Ledger, key: string, token: nat, outcome: Delivery): Ledger {
    if Holds(l, key, token) then Unfence(l.(deliveries := l.deliveries[key := outcome]), key, token) else l
  }

  function Extended(l: Ledger, key: string, token: nat, expires: int): Ledger {
    if Holds(l, key, token) then l.(deliveries := l.deliveries[key := Delivery(Claimed, Some(expires), Some(token))]) else l
  }

  /** What a refused caller is told. */
  function Refusal(l: Ledger, key: string): DeliveryClaim {
    if key in l.deliveries then DeliveryClaim(false, l.deliveries[key].state, l.deliveries[key].lease, None)
    else DeliveryClaim(false, Claimed, None, None)
  }

  const Finished := Delivery(Completed, None, None)
  const Dead := Delivery(DeadLetter, None, None)

  function Retried(now: int, token: nat): Delivery {
    Delivery(Claimed, Some(now), Some(token))
  }

  class DeliveryDeduplicator {
    const leaseSeconds: int
    var deliveries: map<string, Delivery>
    var fences: map<string, nat>
    var issued: nat

    constructor (leaseSeconds: int)
      ensures View() == Ledger(map[], map[], 0) && this.leaseSeconds == leaseSeconds
    {
      this.leaseSeconds := leaseSeconds;
      deliveries, fences, issued := map[], map[], 0;
    }

    function View(): Ledger
      reads this
    {
      Ledger(deliveries, fences, issued)
    }

    /** The token is the one the key was claimed with, and the one that fences it. */
    predicate Fenced(key: string, token: nat)
      reads this
    {
      && key in deliveries && deliveries[key].state == Claimed && deliveries[key].token == Some(token)
      && key in fences && fences[key] == token
    }

    /** A finalization leaves the outcome and no fence on its key, or nothing changed; other keys stay as they were. */
    ghost predicate Ends(ok: bool, key: string, outcome: Delivery, wasDeliveries: map<string, Delivery>,
                         wasFences: map<string, nat>, wasIssued: nat)
      reads this
    {
      && issued == wasIssued
      && deliveries == (if ok then wasDeliveries[key := outcome] else wasDeliveries)
      && fences == (if ok then wasFences - {key} else wasFences)
    }

    /** A fence refuses a claim even after the lease has expired. */
    method Claim(key: string, now: int) returns (claim: DeliveryClaim)
      modifies this
      ensures claim.acquired <==> old(Claimable(View(), key, now))
      ensures View() == if claim.acquired then Grant(old(View()), key, now + leaseSeconds) else old(View())
      ensures claim.acquired ==>
        claim.state == Claimed && claim.lease == Some(now + leaseSeconds) && claim.token == Some(old(issued))
      ensures !claim.acquired ==> claim == Refusal(View(), key)
      ensures claim.acquired <==> old(key !in fences && (key in deliveries ==>
                deliveries[key].state == Claimed && deliveries[key].lease.Some? && deliveries[key].lease.value <= now))
      ensures claim.acquired ==>
        && deliveries == old(deliveries)[key := Delivery(Claimed, Some(now + leaseSeconds), Some(old(issued)))]
        && fences == old(fences)[key := old(issued)] && issued == old(issued) + 1
      ensures !claim.acquired ==>
        && claim.token == None
        && (key in deliveries ==> claim.state == deliveries[key].state && claim.lease == deliveries[key].lease)
        && (key !in deliveries ==> claim.state == Claimed && claim.lease == None)
    {
      if key in fences {
        if key in deliveries {
          return DeliveryClaim(false, deliveries[key].state, deliveries[key].lease, None);
        }
        return DeliveryClaim(false, Claimed, None, None);
      }
      if key in deliveries {
        var known := deliveries[key];
        if known.state != Claimed || known.lease.None? || known.lease.value > now {
          return DeliveryClaim(false, known.state, known.lease, None);
        }
      }
      var expires := now + leaseSeconds;
      var token := issued;
      issued := issued + 1;
      deliveries := deliveries[key := Delivery(Claimed, Some(expires), Some(token))];
      fences := fences[key := token];
      return DeliveryClaim(true, Claimed, Some(expires), Some(token));
    }

    method Renew(key: string, token: nat, now: int) returns (ok: bool)
      modifies this`deliveries
      ensures ok <==> old(Holds(View(), key, token))
      ensures View() == Extended(old(View()), key, token, now + leaseSeconds)
      ensures ok <==> old(Fenced(key, token))
      ensures deliveries == if ok then old(deliveries)[key := Delivery(Claimed, Some(now + leaseSeconds), Some(token))]
                            else old(deliveries)
    {
      ok := Holds(View(), key, token);
      if ok {
        deliveries := deliveries[key := Delivery(Claimed, Some(now + leaseSeconds), Some(token))];
      }
    }

    method ReleaseFence(key: string, token: nat)
      modifies this`fences
      ensures View() == Unfence(old(View()), key, token)
      ensures fences == if old(key in fences && fences[key] == token) then old(fences) - {key} else old(fences)
    {
      if key in fences && fences[key] == token {
        fences := fences - {key};
      }
    }

    method Complete(key: string, token: nat) returns (ok: bool)
      modifies this
      ensures ok <==> old(Holds(View(), key, token))
      ensures View() == Settle(old(View()), key, token, Finished)
      ensures ok <==> old(Fenced(key, token))
      ensures Ends(ok, key, Delivery(Completed, None, None), old(deliveries), old(fences), old(issued))
    {
      ok := Holds(View(), key, token);
      if ok {
        deliveries := deliveries[key := Finished];
        ReleaseFence(key, token);
      }
    }

    method Retry(key: string, token: nat, reason: string, now: int) returns (ok: bool)
      modifies this
      ensures ok <==> reason != "" && old(Holds(View(), key, token))
      ensures View() == if reason == "" then old(View()) else Settle(old(View()), key, token, Retried(now, token))
      ensures ok <==> reason != "" && old(Fenced(key, token))
      ensures Ends(ok, key, Delivery(Claimed, Some(now), Some(token)), old(deliveries), old(fences), old(issued))
    {
      ok := reason != "" && Holds(View(), key, token);
      if ok {
        deliveries := deliveries[key := Retried(now, token)];
        ReleaseFence(key, token);
      }
    }

    /** `dead_letter`, and `restore_dead_letter` after a failed recovery. */
    method SendToDeadLetter(key: string, token: nat, reason: string) returns (ok: bool)
      modifies this
      ensures ok <==> reason != "" && old(Holds(View(), key, token))
      ensures View() == if reason == "" then old(View()) else Settle(old(View()), key, token, Dead)
      ensures ok <==> reason != "" && old(Fenced(key, token))
      ensures Ends(ok, key, Delivery(DeadLetter, None, None), old(deliveries), old(fences), old(issued))
    {
      ok := reason != "" && Holds(View(), key, token);
      if ok {
        deliveries := deliveries[key := Dead];
        ReleaseFence(key, token);
      }
    }

    /** `attributed`: operator and reason are both non-blank. */
    method RecoverDeadLetter(key: string, attributed: bool, now: int) returns (claim: Option<DeliveryClaim>)
      modifies this
      ensures claim.Some? <==> attributed && old(Recoverable(View(), key))
      ensures View() == if claim.Some? then Grant(old(View()), key, now + leaseSeconds) else old(View())
      ensures claim.Some? ==> claim == Some(DeliveryClaim(true, Claimed, Some(now + leaseSeconds), Some(old(issued))))
      ensures claim.Some? <==> attributed && old(key in deliveries && deliveries[key].state == DeadLetter && key !in fences)
      ensures claim.Some? ==>
        && deliveries == old(deliveries)[key := Delivery(Claimed, Some(now + leaseSeconds), Some(old(issued)))]
        && fences == old(fences)[key := old(issued)] && issued == old(issued) + 1
    {
      if !attributed || !Recoverable(View(), key) {
        return None;
      }
      var token := issued;
      issued := issued + 1;
      deliveries := deliveries[key := Delivery(Claimed, Some(now + leaseSeconds), Some(token))];
      fences := fences[key := token];
      return Some(DeliveryClaim(true, Claimed, Some(now + leaseSeconds), Some(token)));
    }
  }

  predicate Recoverable(l: Ledger, key: string) {
    key in l.deliveries && l.deliveries[key].state == DeadLetter && key !in l.fences
  }

  // ----- leases -----

  /** A key handed back for a retry can be claimed again from that very moment on, and not by an earlier clock. */
  lemma RetriedClaimable(l: Ledger, key: string, token: nat, now: int, at: int)
    requires Holds(l, key, token)
    ensures Claimable(Settle(l, key, token, Retried(now, token)), key, at) <==> now <= at
  {
  }

  /** A granted key is closed to everyone while it is fenced, and once the fence is gone until the lease is over. */
  lemma GrantedClaimable(l: Ledger, key: string, expires: int, at: int)
    ensures Holds(Grant(l, key, expires), key, l.issued)
    ensures !Claimable(Grant(l, key, expires), key, at)
    ensures Claimable(Unfence(Grant(l, key, expires), key, l.issued), key, at) <==> expires <= at
  {
  }

  /** A heartbeat moves the lease end: without its fence the key opens at the new end, whatever the old one was. */
  lemma BeatClaimable(l: Ledger, key: string, token: nat, expires: int, at: int)
    requires Holds(l, key, token)
    ensures Holds(Extended(l, key, token, expires), key, token)
    ensures Claimable(Unfence(Extended(l, key, token, expires), key, token), key, at) <==> expires <= at
  {
  }

  /** A completed key is never open again, and a dead letter only for recovery. */
  lemma SettledClosed(l: Ledger, key: string, token: nat, at: int)
    requires Holds(l, key, token)
    ensures !Claimable(Settle(l, key, token, Finished), key, at) && !Recoverable(Settle(l, key, token, Finished), key)
    ensures !Claimable(Settle(l, key, token, Dead), key, at) && Recoverable(Settle(l, key, token, Dead), key)
  {
  }

  /** After several heartbeats the lease end is the last one's. */
  lemma LastBeatCounts(l: Ledger, key: string, token: nat, beats: seq<int>, lease: int)
    requires Holds(l, key, token) && beats != []
    ensures AfterBeats(l, key, token, beats, lease).deliveries[key]
         == Delivery(Claimed, Some(beats[|beats| - 1] + lease), Some(token))
  {
  }

  // ----- one worker -----

  /** How the effect of one execution ends, after some number of heartbeats. */
  datatype Ending = Returns | Raises | HeartbeatFails | CancelledOutside

  datatype FailureMode = ToRetry | ToDeadLetter

  /**
    Further cancellations of one execution: one that arrives while the interrupted effect is
    awaited skips the handing back, one that arrives in the final block skips the release.
   */
  datatype Further = Further(skipHandback: bool, skipRelease: bool)

  /** The ledger after the last heartbeat. */
  function AfterBeats(l: Ledger, key: string, token: nat, beats: seq<int>, lease: int): Ledger {
    if beats == [] then l else Extended(l, key, token, beats[|beats| - 1] + lease)
  }

  /** The execution gets to finalize its delivery. */
  predicate Finalizes(l: Ledger, key: string, token: nat, ending: Ending, further: Further) {
    Holds(l, key, token) && (ending == Returns || !further.skipHandback)
  }

  /**
    `execute_claimed_delivery` without interference on its key. `beats` are the heartbeat
    times before the effect ends at time `end`. The fence outlives the execution only when
    further cancellations skip both the handing back and the release, or the token never held
    the key and its release is skipped.
   */
  method ExecuteClaimed(d: DeliveryDeduplicator, key: string, token: nat, beats: seq<int>, ending: Ending, end: int,
                        mode: FailureMode, further: Further)
    returns (completed: bool)
    modifies d
    ensures completed <==> ending == Returns && old(Holds(d.View(), key, token))
    ensures old(Finalizes(d.View(), key, token, ending, further)) ==>
      d.View() == Settle(old(d.View()), key, token,
                         if ending == Returns then Finished
                         else if mode == ToDeadLetter then Dead else Retried(end, token))
    ensures !old(Finalizes(d.View(), key, token, ending, further)) ==>
      var beaten := AfterBeats(old(d.View()), key, token, beats, d.leaseSeconds);
      d.View() == if further.skipRelease then beaten else Unfence(beaten, key, token)
    ensures old(Finalizes(d.View(), key, token, ending, further)) || !further.skipRelease ==>
      !(key in d.fences && d.fences[key] == token)
  {
    ghost var before := d.View();
    var running := true;
    var i := 0;
    while i < |beats| && running
      invariant 0 <= i <= |beats|
      invariant d.View() == AfterBeats(before, key, token, beats[..i], d.leaseSeconds)
      invariant Holds(d.View(), key, token) <==> Holds(before, key, token)
      invariant running || !Holds(before, key, token)
    {
      running := d.Renew(key, token, beats[i]);
      i := i + 1;
    }
    assert Holds(before, key, token) ==> beats[..i] == beats;
    BeatsKeep(before, key, token, beats, d.leaseSeconds, beats[..i]);
    hide AfterBeats;
    completed := false;
    if running && ending == Returns {
      completed := d.Complete(key, token);
    } else if !further.skipHandback {
      if mode == ToDeadLetter {
        var restored := d.SendToDeadLetter(key, token, "recovery failed");
      } else {
        var retried := d.Retry(key, token, "failed", end);
      }
    }
    if !further.skipRelease {
      d.ReleaseFence(key, token);
    }
  }

  /** Heartbeats move a lease only: the token still holds the key, and settling it comes to the same. */
  lemma BeatsKeep(l: Ledger, key: string, token: nat, beats: seq<int>, lease: int, taken: seq<int>)
    requires Holds(l, key, token) ==> taken == beats
    ensures AfterBeats(l, key, token, taken, lease) == AfterBeats(l, key, token, beats, lease)
    ensures var beaten := AfterBeats(l, key, token, beats, lease);
      && (Holds(beaten, key, token) <==> Holds(l, key, token))
      && (Holds(l, key, token) ==>
            forall outcome :: Settle(beaten, key, token, outcome) == Settle(l, key, token, outcome))
  {
    var beaten := AfterBeats(l, key, token, beats, lease);
    if Holds(l, key, token) {
      forall outcome ensures Settle(beaten, key, token, outcome) == Settle(l, key, token, outcome) {
        assert beaten.deliveries[key := outcome] == l.deliveries[key := outcome];
      }
    }
  }

  /**
    `execute_delivery`: claim, then execute, unless the claim is refused or given back.
    `cancelled`: the caller was cancelled while it waited for the claim, so that the claim went
    to the cleanup of `AcquireOwned` instead.
   */
  method ExecuteDelivery(d: DeliveryDeduplicator, key: string, now: int, cancelled: bool, beats: seq<int>,
                         ending: Ending, end: int, further: Further)
    returns (outcome: Option<DeliveryState>)
    modifies d
    ensures !old(Claimable(d.View(), key, now)) ==> d.View() == old(d.View())
    ensures old(Claimable(d.View(), key, now)) ==>
      var granted, token := Grant(old(d.View()), key, now + d.leaseSeconds), old(d.issued);
      if cancelled then d.View() == Settle(granted, key, token, Retried(now, token))
      else if ending == Returns then d.View() == Settle(granted, key, token, Finished)
      else if !further.skipHandback then d.View() == Settle(granted, key, token, Retried(end, token))
      else
        var beaten := AfterBeats(granted, key, token, beats, d.leaseSeconds);
        d.View() == if further.skipRelease then beaten else Unfence(beaten, key, token)
    ensures outcome == Some(Completed) ==> key in d.deliveries && d.deliveries[key].state == Completed
    ensures cancelled ==> outcome == None
  {
    var claim := d.Claim(key, now);
    if cancelled {
      if claim.acquired {
        var given := d.Retry(key, claim.token.value, "claim acquisition cancelled", now);
        d.ReleaseFence(key, claim.token.value);
      }
      return None;
    }
    if !claim.acquired {
      return Some(claim.state);
    }
    var completed := ExecuteClaimed(d, key, claim.token.value, beats, ending, end, ToRetry, further);
    return if completed then Some(Completed) else None;
  }
}
