/** What leases mean for the clients of the idempotency repository, over every run of it. */
module IdempotencyLeases {
  import opened Basics
  import opened Text
  import opened Idempotency

  /** The record of `key` in what call `i` finds is unfinished. */
  ghost predicate Unfinished(r: Repository, key: string) {
    key in r.records && r.records[key].state == InProgress
  }

  /** A renewal or finalization with the record's own token. */
  predicate ByHolder(call: Call, key: string, record: Record) {
    (call.Renew? || call.Finalize?) && call.key == key && record.token == Some(call.token)
  }

  /** A claim or abandonment of the key that reads the clock before the lease end. */
  predicate TooEarly(call: Call, key: string, record: Record) {
    (call.Claim? || call.Abandon?) && call.key == key && call.now < record.lease
  }

  /** A claim or abandonment of the key that reads the clock at or after the lease end. */
  predicate InTime(call: Call, key: string, record: Record) {
    (call.Claim? || call.Abandon?) && call.key == key && call.now >= record.lease
  }

  // ----- one call of a run -----

  lemma StepOf(states: seq<Repository>, calls: seq<Call>, replies: seq<Reply>, lease: int, i: nat)
    requires Trace(states, calls, replies, lease) && i < |calls|
    ensures Inv(states[i]) && Outcome(states[i + 1], replies[i]) == Step(states[i], lease, calls[i])
  {
    hide Step, Inv;
    TraceKeeps(states, calls, replies, lease, i);
    assert CallAt(states, calls, replies, lease, i);
  }

  lemma Lengths(states: seq<Repository>, calls: seq<Call>, replies: seq<Reply>, lease: int)
    requires Trace(states, calls, replies, lease)
    ensures |states| == |calls| + 1 && |replies| == |calls|
  {
  }

  /** An unfinished record changes only through its holder, or once its lease is over. */
  lemma HeldRecord(states: seq<Repository>, calls: seq<Call>, replies: seq<Reply>, lease: int, i: nat, key: string)
    requires Trace(states, calls, replies, lease) && i < |calls| && Unfinished(states[i], key)
    ensures var record := states[i].records[key];
            key in states[i + 1].records
            && (states[i + 1].records[key] == record || ByHolder(calls[i], key, record) || InTime(calls[i], key, record))
  {
    StepOf(states, calls, replies, lease, i);
    hide Trace, Strip, Starts;
  }

  /** Before the lease end a claim of the key answers busy, or conflict for another request, and changes nothing. */
  lemma ClaimBeforeEnd(states: seq<Repository>, calls: seq<Call>, replies: seq<Reply>, lease: int, i: nat, key: string)
    requires Trace(states, calls, replies, lease) && i < |calls| && Unfinished(states[i], key)
    requires calls[i].Claim? && calls[i].key == key && calls[i].now < states[i].records[key].lease
    ensures states[i + 1] == states[i]
    ensures var record := states[i].records[key];
            replies[i] == if calls[i].kind == record.kind && calls[i].body == record.body && calls[i].thread == record.thread
                          then Busy(record.lease) else Conflict
  {
    StepOf(states, calls, replies, lease, i);
    hide Trace;
  }

  /** From the lease end on a claim for the same request takes the record over with a new token and a new lease. */
  lemma ClaimAfterEnd(states: seq<Repository>, calls: seq<Call>, replies: seq<Reply>, lease: int, i: nat, key: string)
    requires Trace(states, calls, replies, lease) && i < |calls| && Unfinished(states[i], key)
    requires calls[i].Claim? && calls[i].key == key && calls[i].now >= states[i].records[key].lease
    ensures var record, call := states[i].records[key], calls[i];
            if call.kind == record.kind && call.body == record.body && call.thread == record.thread then
              && replies[i] == Granted(states[i].issued, call.now + lease, true)
              && states[i + 1].bindings == states[i].bindings && states[i + 1].issued == states[i].issued + 1
              && states[i + 1].records.Keys == states[i].records.Keys
              && (forall other :: other in states[i].records && other != key ==>
                    states[i + 1].records[other] == states[i].records[other])
              && states[i + 1].records[key] == record.(token := Some(states[i].issued), lease := call.now + lease)
            else replies[i] == Conflict && states[i + 1] == states[i]
  {
    StepOf(states, calls, replies, lease, i);
    hide Trace;
  }

  /** A claim of a new key on a thread with an unfinished record answers busy before that lease end, conflict from it on. */
  lemma ClaimBeside(states: seq<Repository>, calls: seq<Call>, replies: seq<Reply>, lease: int, i: nat, holder: string)
    requires Trace(states, calls, replies, lease) && i < |calls| && Unfinished(states[i], holder)
    requires calls[i].Claim? && calls[i].key !in states[i].records
    requires calls[i].thread == states[i].records[holder].thread
    ensures states[i + 1] == states[i]
    ensures replies[i] == if calls[i].now < states[i].records[holder].lease then Busy(states[i].records[holder].lease)
                          else Conflict
  {
    StepOf(states, calls, replies, lease, i);
    hide Trace;
    assert Owns(states[i], holder, calls[i].thread);
    OnlyOwner(states[i], holder, calls[i].thread);
  }

  lemma OnlyOwner(r: Repository, holder: string, thread: string)
    requires Inv(r) && Owns(r, holder, thread)
    ensures forall owner :: Owns(r, owner, thread) ==> owner == holder
  {
  }

  /** Nothing on the thread stands against a new key. */
  ghost predicate Free(r: Repository, call: Call)
    requires call.Claim?
  {
    && (forall key :: key in r.records && r.records[key].thread == call.thread ==>
          r.records[key].state != InProgress && !(call.kind == Start && r.records[key].kind == Start))
    && (call.binding.Some? && (call.thread, call.binding.value.comment) in r.bindings ==>
          r.bindings[(call.thread, call.binding.value.comment)] == Bound(call.body, call.binding.value))
  }

  /** A new key is granted exactly when its thread is free; the grant is leased from the reading on and binds its comment. */
  lemma FreshClaim(states: seq<Repository>, calls: seq<Call>, replies: seq<Reply>, lease: int, i: nat)
    requires Trace(states, calls, replies, lease) && i < |calls|
    requires calls[i].Claim? && calls[i].key !in states[i].records
    ensures replies[i].Granted? <==> Free(states[i], calls[i])
    ensures replies[i].Granted? ==>
      var r, call, after := states[i], calls[i], states[i + 1];
      && replies[i] == Granted(r.issued, call.now + lease, false)
      && after.issued == r.issued + 1
      && after.records.Keys == r.records.Keys + {call.key}
      && (forall other :: other in r.records ==> after.records[other] == r.records[other])
      && after.records[call.key] == Record(call.kind, call.body, call.thread, InProgress, Some(r.issued), call.now + lease, None, None, None)
      && (forall at :: at in after.bindings <==>
            at in r.bindings || (call.binding.Some? && at == (call.thread, call.binding.value.comment)))
      && (forall at :: at in r.bindings ==> after.bindings[at] == r.bindings[at])
      && (call.binding.Some? ==> after.bindings[(call.thread, call.binding.value.comment)] == Bound(call.body, call.binding.value))
    ensures !replies[i].Granted? ==> states[i + 1] == states[i]
  {
    StepOf(states, calls, replies, lease, i);
    hide Trace, Inv;
    FreeExact(states[i], calls[i]);
  }

  lemma FreeExact(r: Repository, call: Call)
    requires call.Claim?
    ensures Free(r, call) <==>
      && (forall owner :: !Owns(r, owner, call.thread))
      && !(call.kind == Start && exists other :: Starts(r, other, call.thread))
      && !Rebinds(r, call.thread, call.body, call.binding)
  {
    if Free(r, call) {
      forall owner ensures !Owns(r, owner, call.thread) {
      }
    } else if (forall owner :: !Owns(r, owner, call.thread))
           && !(call.kind == Start && exists other :: Starts(r, other, call.thread)) {
      forall key | key in r.records && r.records[key].thread == call.thread
        ensures r.records[key].state != InProgress && !(call.kind == Start && r.records[key].kind == Start)
      {
        assert !Owns(r, key, call.thread);
        assert call.kind == Start ==> !Starts(r, key, call.thread);
      }
    }
  }

  /** A renewal moves the lease of its own record and nothing else; a stale token moves nothing. */
  lemma RenewExact(states: seq<Repository>, calls: seq<Call>, replies: seq<Reply>, lease: int, i: nat)
    requires Trace(states, calls, replies, lease) && i < |calls| && calls[i].Renew?
    ensures var r, call := states[i], calls[i];
            if Unfinished(r, call.key) && r.records[call.key].token == Some(call.token) then
              && replies[i] == Renewed(call.now + lease)
              && states[i + 1] == r.(records := r.records[call.key := r.records[call.key].(lease := call.now + lease)])
            else replies[i] == Conflict && states[i + 1] == r
  {
    StepOf(states, calls, replies, lease, i);
    hide Trace;
  }

  /** The operator and the reason name the record as bound to that comment. */
  ghost predicate Names(r: Repository, call: Call)
    requires call.Abandon?
  {
    && !Blank(call.operator) && !Blank(call.reason)
    && call.key in r.records && r.records[call.key].kind == Resume && r.records[call.key].thread == call.thread
    && (call.thread, call.bound.comment) in r.bindings
    && r.bindings[(call.thread, call.bound.comment)].body == r.records[call.key].body
    && r.bindings[(call.thread, call.bound.comment)].binding == call.bound
  }

  /**
    An abandonment takes effect exactly on the named unfinished resume whose lease is over. Before
    the lease end it answers busy; a repetition with the same attribution is accepted and changes
    nothing; everything else is refused.
   */
  lemma AbandonExact(states: seq<Repository>, calls: seq<Call>, replies: seq<Reply>, lease: int, i: nat)
    requires Trace(states, calls, replies, lease) && i < |calls| && calls[i].Abandon?
    ensures var r, call := states[i], calls[i];
      if Blank(call.operator) || Blank(call.reason) then replies[i] == Invalid && states[i + 1] == r
      else if !Names(r, call) then replies[i] == Conflict && states[i + 1] == r
      else
        var record := r.records[call.key];
        match record.state
        case Completed => replies[i] == Conflict && states[i + 1] == r
        case Abandoned =>
          && states[i + 1] == r
          && replies[i] == (if record.abandonedBy == Some(Strip(call.operator)) && record.reason == Some(Strip(call.reason))
                            then Done else Conflict)
        case InProgress =>
          if call.now < record.lease then replies[i] == Busy(record.lease) && states[i + 1] == r
          else
            && replies[i] == Done
            && states[i + 1] == r.(records := r.records[call.key :=
                 Record(Resume, record.body, record.thread, Abandoned, None, call.later, record.response,
                        Some(Strip(call.operator)), Some(Strip(call.reason)))])
  {
    StepOf(states, calls, replies, lease, i);
    StripEmpty(calls[i].operator);
    StripEmpty(calls[i].reason);
    hide Trace, Strip, Inv, Blank;
  }

  // ----- a whole stretch -----

  /** Over calls `i` to `j` nobody claims or abandons the key at or after its lease end, and its holder does not finalize. */
  ghost predicate Undisturbed(states: seq<Repository>, calls: seq<Call>, key: string, token: nat, i: nat, j: nat)
    requires i <= j <= |calls| && |states| == |calls| + 1
  {
    forall k :: i <= k < j && key in states[k].records ==>
      calls[k] != Call.Finalize(key, token, FinalResponse(calls[k])) && !InTime(calls[k], key, states[k].records[key])
  }

  function FinalResponse(call: Call): string {
    if call.Finalize? then call.response else ""
  }

  /** The lease end set by the last renewal of the holder among calls `i` to `j`, or the one found at `i`. */
  function LatestLease(calls: seq<Call>, key: string, token: nat, lease: int, found: int, i: nat, j: nat): int
    requires i <= j <= |calls|
    decreases j
  {
    if i == j then found
    else if calls[j - 1].Renew? && calls[j - 1].key == key && calls[j - 1].token == token then calls[j - 1].now + lease
    else LatestLease(calls, key, token, lease, found, i, j - 1)
  }

  /**
    A live claim holds: as long as no claim or abandonment of the key comes at or after its lease
    end, and its holder does not finalize, its token stays live, the record keeps everything but
    the lease its holder renews, and every other claim of the key is turned away.
   */
  lemma {:induction false} LiveClaimHolds(states: seq<Repository>, calls: seq<Call>, replies: seq<Reply>, lease: int,
                                          i: nat, j: nat, key: string, token: nat)
    requires Trace(states, calls, replies, lease) && i <= j <= |calls|
    requires Live(states[i], key, token) && Undisturbed(states, calls, key, token, i, j)
    ensures Live(states[j], key, token)
    ensures states[j].records[key]
         == states[i].records[key].(lease := LatestLease(calls, key, token, lease, states[i].records[key].lease, i, j))
    ensures j < |calls| && calls[j].Claim? && calls[j].key == key && calls[j].now < states[j].records[key].lease ==>
      replies[j] == Busy(states[j].records[key].lease) || replies[j] == Conflict
    decreases j
  {
    hide Trace, Step, Inv;
    Lengths(states, calls, replies, lease);
    if i < j {
      LiveClaimHolds(states, calls, replies, lease, i, j - 1, key, token);
      HeldStep(states, calls, replies, lease, j - 1, key, token);
    }
    if j < |calls| && calls[j].Claim? && calls[j].key == key && calls[j].now < states[j].records[key].lease {
      ClaimBeforeEnd(states, calls, replies, lease, j, key);
    }
  }

  lemma HeldStep(states: seq<Repository>, calls: seq<Call>, replies: seq<Reply>, lease: int, i: nat, key: string, token: nat)
    requires Trace(states, calls, replies, lease) && i < |calls| && Live(states[i], key, token)
    requires calls[i] != Call.Finalize(key, token, FinalResponse(calls[i])) && !InTime(calls[i], key, states[i].records[key])
    ensures Live(states[i + 1], key, token)
    ensures states[i + 1].records[key]
         == if calls[i].Renew? && calls[i].key == key && calls[i].token == token
            then states[i].records[key].(lease := calls[i].now + lease) else states[i].records[key]
  {
    hide Trace, Step, Inv;
    HeldRecord(states, calls, replies, lease, i, key);
    if calls[i].Renew? {
      RenewExact(states, calls, replies, lease, i);
    }
  }

  /** Every grant is live at once under the token it carries, until the lease end it states. */
  lemma GrantIsLive(states: seq<Repository>, calls: seq<Call>, replies: seq<Reply>, lease: int, i: nat)
    requires Trace(states, calls, replies, lease) && i < |calls| && replies[i].Granted?
    ensures calls[i].Claim? && Live(states[i + 1], calls[i].key, replies[i].token)
    ensures states[i + 1].records[calls[i].key].lease == replies[i].expires == calls[i].now + lease
    ensures replies[i].recovered <==> calls[i].key in states[i].records
  {
    StepOf(states, calls, replies, lease, i);
    hide Trace, Inv;
  }

  /** A claim is granted exactly when its key is new on a free thread, or its own unfinished request is past its lease end. */
  lemma GrantExact(states: seq<Repository>, calls: seq<Call>, replies: seq<Reply>, lease: int, i: nat)
    requires Trace(states, calls, replies, lease) && i < |calls| && calls[i].Claim?
    ensures replies[i].Granted? <==>
      var r, call := states[i], calls[i];
      if call.key in r.records then
        var record := r.records[call.key];
        && record.state == InProgress && record.lease <= call.now
        && record.kind == call.kind && record.body == call.body && record.thread == call.thread
      else Free(r, call)
  {
    StepOf(states, calls, replies, lease, i);
    hide Trace, Inv;
    FreeExact(states[i], calls[i]);
  }

  /** A replay is the stored response of the same completed request; an abandoned request is never revived. */
  lemma ReplayExact(states: seq<Repository>, calls: seq<Call>, replies: seq<Reply>, lease: int, i: nat)
    requires Trace(states, calls, replies, lease) && i < |calls| && calls[i].Claim?
    ensures forall response :: replies[i] == Replayed(response) <==>
      var r, call := states[i], calls[i];
      && call.key in r.records && r.records[call.key].state == Completed && r.records[call.key].response == Some(response)
      && r.records[call.key].kind == call.kind && r.records[call.key].body == call.body
      && r.records[call.key].thread == call.thread
  {
    StepOf(states, calls, replies, lease, i);
    hide Trace;
    if calls[i].key in states[i].records {
      assert RecordOk(states[i], calls[i].key);
    }
  }

  // ----- completed resumes -----

  /** Call `a` was granted as the first claim of the key, for that kind, body and thread. */
  ghost predicate Opens(calls: seq<Call>, replies: seq<Reply>, a: nat, key: string, kind: Kind, body: string, thread: string) {
    && a < |calls| && a < |replies|
    && calls[a].Claim? && calls[a].key == key && calls[a].kind == kind && calls[a].body == body && calls[a].thread == thread
    && replies[a].Granted? && !replies[a].recovered
  }

  /** Call `c` was granted as a first claim and tied the comment to that body. */
  ghost predicate Ties(calls: seq<Call>, replies: seq<Reply>, c: nat, thread: string, body: string, binding: ResumeBinding) {
    && c < |calls| && c < |replies|
    && calls[c].Claim? && calls[c].thread == thread && calls[c].body == body && calls[c].binding == Some(binding)
    && replies[c].Granted? && !replies[c].recovered
  }

  /** Every record was opened by a first claim for its kind, body and thread. */
  lemma {:induction false} RecordOpened(states: seq<Repository>, calls: seq<Call>, replies: seq<Reply>, lease: int, i: nat,
                                        key: string) returns (a: nat)
    requires Trace(states, calls, replies, lease) && i <= |calls| && key in states[i].records
    ensures a < i
    ensures Opens(calls, replies, a, key, states[i].records[key].kind, states[i].records[key].body, states[i].records[key].thread)
  {
    hide Trace, Step, Inv;
    Lengths(states, calls, replies, lease);
    StartsEmpty(states, calls, replies, lease);
    if key in states[i - 1].records {
      a := RecordOpened(states, calls, replies, lease, i - 1, key);
      RunAdvances(states, calls, replies, lease, i - 1, i);
      assert Evolves(states[i - 1].records[key], states[i].records[key]);
    } else {
      a := i - 1;
      NewRecord(states, calls, replies, lease, a, key);
    }
  }

  lemma StartsEmpty(states: seq<Repository>, calls: seq<Call>, replies: seq<Reply>, lease: int)
    requires Trace(states, calls, replies, lease)
    ensures |states| > 0 && states[0] == Repository(map[], map[], 0)
  {
  }

  lemma NewRecord(states: seq<Repository>, calls: seq<Call>, replies: seq<Reply>, lease: int, i: nat, key: string)
    requires Trace(states, calls, replies, lease) && i < |calls| && key !in states[i].records && key in states[i + 1].records
    ensures Opens(calls, replies, i, key, states[i + 1].records[key].kind, states[i + 1].records[key].body,
                  states[i + 1].records[key].thread)
  {
    StepOf(states, calls, replies, lease, i);
    Lengths(states, calls, replies, lease);
    hide Trace, Inv, Strip;
  }

  lemma NewBinding(states: seq<Repository>, calls: seq<Call>, replies: seq<Reply>, lease: int, i: nat, at: (string, int))
    requires Trace(states, calls, replies, lease) && i < |calls| && at !in states[i].bindings && at in states[i + 1].bindings
    ensures states[i + 1].bindings[at].binding.comment == at.1
    ensures Ties(calls, replies, i, at.0, states[i + 1].bindings[at].body, states[i + 1].bindings[at].binding)
  {
    StepOf(states, calls, replies, lease, i);
    Lengths(states, calls, replies, lease);
    hide Trace, Inv, Strip;
  }

  /** Every tie of a comment was made by a first claim. */
  lemma {:induction false} BindingTied(states: seq<Repository>, calls: seq<Call>, replies: seq<Reply>, lease: int, i: nat,
                                       at: (string, int)) returns (c: nat)
    requires Trace(states, calls, replies, lease) && i <= |calls| && at in states[i].bindings
    ensures c < i && Ties(calls, replies, c, at.0, states[i].bindings[at].body, states[i].bindings[at].binding)
  {
    hide Trace, Step, Inv;
    Lengths(states, calls, replies, lease);
    StartsEmpty(states, calls, replies, lease);
    if at in states[i - 1].bindings {
      c := BindingTied(states, calls, replies, lease, i - 1, at);
      RunAdvances(states, calls, replies, lease, i - 1, i);
    } else {
      c := i - 1;
      NewBinding(states, calls, replies, lease, c, at);
    }
  }

  /** What the claims and the finalization of a run add up to for one resume. */
  ghost predicate Fulfilled(calls: seq<Call>, replies: seq<Reply>, i: nat, key: string, thread: string, binding: ResumeBinding) {
    exists a: nat, b: nat, c: nat, response :: a < i && b < i && c < i && b < |calls| && b < |replies| && c < |calls|
      && calls[c].Claim? && Opens(calls, replies, a, key, Resume, calls[c].body, thread)
      && Ties(calls, replies, c, thread, calls[c].body, binding)
      && FinalizedBy(calls[b], replies[b], key, response)
  }

  /**
    A completed resume matches thread and comment exactly when, earlier in the run, a resume was
    first claimed under the key on that thread, the comment was tied to the same body there, and
    the key was finalized.
   */
  lemma MatchExact(states: seq<Repository>, calls: seq<Call>, replies: seq<Reply>, lease: int, i: nat, key: string,
                   thread: string, binding: ResumeBinding)
    requires Trace(states, calls, replies, lease) && i <= |calls|
    ensures ResumeMatches(states[i], key, thread, binding) <==> Fulfilled(calls, replies, i, key, thread, binding)
  {
    hide Trace, Step, Inv;
    Lengths(states, calls, replies, lease);
    if ResumeMatches(states[i], key, thread, binding) {
      MatchFulfilled(states, calls, replies, lease, i, key, thread, binding);
    }
    if Fulfilled(calls, replies, i, key, thread, binding) {
      var a: nat, b: nat, c: nat, response :| a < i && b < i && c < i && b < |calls| && b < |replies| && c < |calls|
        && calls[c].Claim? && Opens(calls, replies, a, key, Resume, calls[c].body, thread)
        && Ties(calls, replies, c, thread, calls[c].body, binding)
        && FinalizedBy(calls[b], replies[b], key, response);
      Opened(states, calls, replies, lease, a, key);
      Finalized(states, calls, replies, lease, b, key);
      Tied(states, calls, replies, lease, c, binding);
      Later(states, calls, replies, lease, a + 1, i, key);
      Later(states, calls, replies, lease, b + 1, i, key);
      RunAdvances(states, calls, replies, lease, c + 1, i);
    }
  }

  lemma MatchFulfilled(states: seq<Repository>, calls: seq<Call>, replies: seq<Reply>, lease: int, i: nat, key: string,
                       thread: string, binding: ResumeBinding)
    requires Trace(states, calls, replies, lease) && i <= |calls|
    requires ResumeMatches(states[i], key, thread, binding)
    ensures Fulfilled(calls, replies, i, key, thread, binding)
  {
    hide Trace, Step, Inv;
    Lengths(states, calls, replies, lease);
    var a := RecordOpened(states, calls, replies, lease, i, key);
    var c := BindingTied(states, calls, replies, lease, i, (thread, binding.comment));
    CompletedWasFinalized(states, calls, replies, lease, i, key);
    var b :| 0 <= b < i && FinalizedBy(calls[b], replies[b], key, states[i].records[key].response.value);
    assert calls[c].body == states[i].records[key].body;
  }

  lemma Opened(states: seq<Repository>, calls: seq<Call>, replies: seq<Reply>, lease: int, i: nat, key: string)
    requires Trace(states, calls, replies, lease) && i < |calls| && i < |replies|
    requires calls[i].Claim? && calls[i].key == key && replies[i].Granted?
    ensures key in states[i + 1].records && states[i + 1].records[key].kind == calls[i].kind
    ensures states[i + 1].records[key].body == calls[i].body && states[i + 1].records[key].thread == calls[i].thread
  {
    StepOf(states, calls, replies, lease, i);
    hide Trace, Inv, Strip;
  }

  lemma Finalized(states: seq<Repository>, calls: seq<Call>, replies: seq<Reply>, lease: int, i: nat, key: string)
    requires Trace(states, calls, replies, lease) && i < |calls| && i < |replies|
    requires calls[i].Finalize? && calls[i].key == key && replies[i] == Done
    ensures key in states[i + 1].records && states[i + 1].records[key].state == Completed
  {
    StepOf(states, calls, replies, lease, i);
    hide Trace, Inv, Strip;
  }

  lemma Tied(states: seq<Repository>, calls: seq<Call>, replies: seq<Reply>, lease: int, i: nat, binding: ResumeBinding)
    requires Trace(states, calls, replies, lease) && i < |calls| && i < |replies|
    requires calls[i].Claim? && calls[i].binding == Some(binding) && replies[i].Granted? && !replies[i].recovered
    ensures (calls[i].thread, binding.comment) in states[i + 1].bindings
    ensures states[i + 1].bindings[(calls[i].thread, binding.comment)] == Bound(calls[i].body, binding)
  {
    StepOf(states, calls, replies, lease, i);
    hide Trace, Inv, Strip;
  }

  lemma Later(states: seq<Repository>, calls: seq<Call>, replies: seq<Reply>, lease: int, i: nat, j: nat, key: string)
    requires Trace(states, calls, replies, lease) && i <= j <= |calls| && key in states[i].records
    ensures key in states[j].records && Evolves(states[i].records[key], states[j].records[key])
  {
    Lengths(states, calls, replies, lease);
    hide Trace, Step, Inv;
    RunAdvances(states, calls, replies, lease, i, j);
  }
}
