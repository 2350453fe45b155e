/** Leased idempotency claims of planner mutations, one thread at a time. */
module Idempotency {
  import opened Basics
  import opened Text

  datatype Kind = Start | Resume

  datatype State = InProgress | Completed | Abandoned

  /** A cleared token is `None`. */
  datatype Record = Record(
    kind: Kind,
    body: string,
    thread: string,
    state: State,
    token: Option<nat>,
    lease: int,
    response: Option<string>,
    abandonedBy: Option<string>,
    reason: Option<string>)

  datatype ResumeBinding = ResumeBinding(interrupt: string, comment: int, createdAt: int)

  datatype Bound = Bound(body: string, binding: ResumeBinding)

  /** `issued` counts the tokens handed out; a fresh token is the next number. */
  datatype Repository = Repository(records: map<string, Record>, bindings: map<(string, int), Bound>, issued: nat)

  datatype Call =
    | Claim(kind: Kind, key: string, body: string, thread: string, binding: Option<ResumeBinding>, now: int)
    | Renew(key: string, token: nat, now: int)
    | Finalize(key: string, token: nat, response: string)
    | Abandon(key: string, thread: string, bound: ResumeBinding, operator: string, reason: string, now: int, later: int)

  datatype Reply =
    | Granted(token: nat, expires: int, recovered: bool)
    | Replayed(response: string)
    | Busy(until: int)
    | Renewed(until: int)
    | Conflict
    | Invalid
    | Done

  datatype Outcome = Outcome(repository: Repository, reply: Reply)

  // ----- what each call does -----

  predicate Owns(r: Repository, key: string, thread: string) {
    key in r.records && r.records[key].thread == thread && r.records[key].state == InProgress
  }

  predicate Starts(r: Repository, key: string, thread: string) {
    key in r.records && r.records[key].thread == thread && r.records[key].kind == Start
  }

  /** The token is the live claim of the key: `renew` and `finalize` accept it. */
  predicate Live(r: Repository, key: string, token: nat) {
    key in r.records && r.records[key].state == InProgress && r.records[key].token == Some(token)
  }

  predicate Rebinds(r: Repository, thread: string, body: string, binding: Option<ResumeBinding>) {
    && binding.Some?
    && (thread, binding.value.comment) in r.bindings
    && r.bindings[(thread, binding.value.comment)] != Bound(body, binding.value)
  }

  predicate SameRequest(record: Record, call: Call)
    requires call.Claim?
  {
    record.kind == call.kind && record.body == call.body && record.thread == call.thread
  }

  ghost function Claimed(r: Repository, lease: int, call: Call): Outcome
    requires call.Claim?
  {
    if call.key in r.records then Reclaimed(r, lease, call)
    else if exists owner :: Owns(r, owner, call.thread) then
      var owner :| Owns(r, owner, call.thread);
      Outcome(r, if r.records[owner].lease > call.now then Busy(r.records[owner].lease) else Conflict)
    else if call.kind == Start && exists other :: Starts(r, other, call.thread) then Outcome(r, Conflict)
    else if Rebinds(r, call.thread, call.body, call.binding) then Outcome(r, Conflict)
    else Outcome(Inserted(r, lease, call), Granted(r.issued, call.now + lease, false))
  }

  function Inserted(r: Repository, lease: int, call: Call): Repository
    requires call.Claim?
  {
    Repository(
      r.records[call.key := Record(call.kind, call.body, call.thread, InProgress, Some(r.issued), call.now + lease,
                                   None, None, None)],
      if call.binding.Some? then
        r.bindings[(call.thread, call.binding.value.comment) := Bound(call.body, call.binding.value)]
      else r.bindings,
      r.issued + 1)
  }

  function Reclaimed(r: Repository, lease: int, call: Call): Outcome
    requires call.Claim? && call.key in r.records
  {
    var existing := r.records[call.key];
    if !SameRequest(existing, call) then Outcome(r, Conflict)
    else match existing.state
      case Completed => Outcome(r, if existing.response.Some? then Replayed(existing.response.value) else Invalid)
      case Abandoned => Outcome(r, Conflict)
      case InProgress =>
        if existing.lease > call.now then Outcome(r, Busy(existing.lease))
        else
          var renewed := existing.(token := Some(r.issued), lease := call.now + lease);
          Outcome(Repository(r.records[call.key := renewed], r.bindings, r.issued + 1),
                  Granted(r.issued, call.now + lease, true))
  }

  function Abandoning(r: Repository, call: Call): Outcome
    requires call.Abandon?
  {
    var operator, reason := Strip(call.operator), Strip(call.reason);
    if operator == "" || reason == "" then Outcome(r, Invalid)
    else if call.key !in r.records then Outcome(r, Conflict)
    else
      var record := r.records[call.key];
      if record.kind != Resume || record.thread != call.thread then Outcome(r, Conflict)
      else if (call.thread, call.bound.comment) !in r.bindings
           || r.bindings[(call.thread, call.bound.comment)] != Bound(record.body, call.bound) then Outcome(r, Conflict)
      else match record.state
        case Completed => Outcome(r, Conflict)
        case Abandoned =>
          Outcome(r, if record.abandonedBy == Some(operator) && record.reason == Some(reason) then Done else Conflict)
        case InProgress =>
          if record.lease > call.now then Outcome(r, Busy(record.lease))
          else Outcome(r.(records := r.records[call.key := record.(state := Abandoned, token := None, lease := call.later,
                                                                   abandonedBy := Some(operator), reason := Some(reason))]), Done)
  }

  ghost function Step(r: Repository, lease: int, call: Call): Outcome {
    match call
    case Claim(_, _, _, _, _, _) => Claimed(r, lease, call)
    case Renew(key, token, now) =>
      if Live(r, key, token) then
        Outcome(r.(records := r.records[key := r.records[key].(lease := now + lease)]), Renewed(now + lease))
      else Outcome(r, Conflict)
    case Finalize(key, token, response) =>
      if Live(r, key, token) then
        Outcome(r.(records := r.records[key := r.records[key].(state := Completed, response := Some(response))]), Done)
      else Outcome(r, Conflict)
    case Abandon(_, _, _, _, _, _, _) => Abandoning(r, call)
  }

  /** `completed_resume_matches`. */
  predicate ResumeMatches(r: Repository, key: string, thread: string, binding: ResumeBinding) {
    && key in r.records
    && r.records[key].kind == Resume && r.records[key].thread == thread && r.records[key].state == Completed
    && (thread, binding.comment) in r.bindings
    && r.bindings[(thread, binding.comment)] == Bound(r.records[key].body, binding)
  }

  // ----- the invariant -----

  predicate RecordOk(r: Repository, key: string)
    requires key in r.records
  {
    var record := r.records[key];
    && (record.token.Some? ==> record.token.value < r.issued)
    && (record.state == InProgress ==> record.token.Some? && record.response.None?)
    && (record.state == Completed ==> record.response.Some?)
    && (record.state == Abandoned ==>
          record.kind == Resume && record.token.None? && record.response.None?
          && record.abandonedBy.Some? && record.abandonedBy.value != "" && record.reason.Some? && record.reason.value != "")
  }

  ghost predicate Inv(r: Repository) {
    && (forall key :: key in r.records ==> RecordOk(r, key))
    && (forall thread, a, b :: Owns(r, a, thread) && Owns(r, b, thread) ==> a == b)
    && (forall thread, a, b :: Starts(r, a, thread) && Starts(r, b, thread) ==> a == b)
  }

  /** Replacing a record by one of the same kind and thread, unfinished only if it was. */
  lemma UpdateKeeps(r: Repository, key: string, record: Record, issued: nat)
    requires Inv(r) && key in r.records && r.issued <= issued
    requires record.kind == r.records[key].kind && record.thread == r.records[key].thread
    requires record.state == InProgress ==> r.records[key].state == InProgress
    requires RecordOk(Repository(r.records[key := record], r.bindings, issued), key)
    ensures Inv(Repository(r.records[key := record], r.bindings, issued))
  {
    var after := Repository(r.records[key := record], r.bindings, issued);
    forall k | k in after.records ensures RecordOk(after, k) {
      assert RecordOk(r, k);
    }
    hide RecordOk;
    forall thread, a, b | Owns(after, a, thread) && Owns(after, b, thread) ensures a == b {
      assert Owns(r, a, thread) && Owns(r, b, thread);
    }
    forall thread, a, b | Starts(after, a, thread) && Starts(after, b, thread) ensures a == b {
      assert Starts(r, a, thread) && Starts(r, b, thread);
    }
  }

  lemma InsertKeeps(r: Repository, lease: int, call: Call)
    requires Inv(r) && call.Claim? && call.key !in r.records
    requires forall owner :: !Owns(r, owner, call.thread)
    requires call.kind == Start ==> forall other :: !Starts(r, other, call.thread)
    ensures Inv(Inserted(r, lease, call))
  {
    var after := Inserted(r, lease, call);
    forall k | k in after.records ensures RecordOk(after, k) {
      if k != call.key {
        assert RecordOk(r, k);
      }
    }
    hide RecordOk;
    forall thread, a, b | Owns(after, a, thread) && Owns(after, b, thread) ensures a == b {
      assert a != call.key ==> Owns(r, a, thread);
      assert b != call.key ==> Owns(r, b, thread);
    }
    forall thread, a, b | Starts(after, a, thread) && Starts(after, b, thread) ensures a == b {
      assert a != call.key ==> Starts(r, a, thread);
      assert b != call.key ==> Starts(r, b, thread);
    }
  }

  lemma ClaimKeeps(r: Repository, lease: int, call: Call)
    requires Inv(r) && call.Claim?
    ensures Inv(Claimed(r, lease, call).repository)
  {
    if call.key in r.records {
      var existing := r.records[call.key];
      assert RecordOk(r, call.key);
      if Reclaimed(r, lease, call).repository != r {
        hide Inv;
        UpdateKeeps(r, call.key, existing.(token := Some(r.issued), lease := call.now + lease), r.issued + 1);
      }
    } else if Claimed(r, lease, call).repository != r {
      hide Inv, Inserted, Owns, Starts;
      InsertKeeps(r, lease, call);
    }
  }

  lemma AbandonKeeps(r: Repository, call: Call)
    requires Inv(r) && call.Abandon?
    ensures Inv(Abandoning(r, call).repository)
  {
    var after := Abandoning(r, call).repository;
    if after != r {
      assert RecordOk(r, call.key);
      hide Inv, Strip;
      UpdateKeeps(r, call.key, after.records[call.key], r.issued);
    }
  }

  lemma StepKeeps(r: Repository, lease: int, call: Call)
    requires Inv(r)
    ensures Inv(Step(r, lease, call).repository)
  {
    hide Claimed, Abandoning;
    match call
    case Claim(_, _, _, _, _, _) => ClaimKeeps(r, lease, call);
    case Abandon(_, _, _, _, _, _, _) => AbandonKeeps(r, call);
    case Renew(key, token, now) =>
      if Live(r, key, token) {
        assert RecordOk(r, key);
        UpdateKeeps(r, key, r.records[key].(lease := now + lease), r.issued);
      }
    case Finalize(key, token, response) =>
      if Live(r, key, token) {
        assert RecordOk(r, key);
        UpdateKeeps(r, key, r.records[key].(state := Completed, response := Some(response)), r.issued);
      }
  }

  class IdempotencyRepository {
    const leaseSeconds: int
    var records: map<string, Record>
    var bindings: map<(string, int), Bound>
    var issued: nat

    constructor (leaseSeconds: int)
      ensures View() == Repository(map[], map[], 0) && Valid() && this.leaseSeconds == leaseSeconds
    {
      this.leaseSeconds := leaseSeconds;
      records, bindings, issued := map[], map[], 0;
    }

    function View(): Repository
      reads this
    {
      Repository(records, bindings, issued)
    }

    ghost predicate Valid()
      reads this
    {
      Inv(View())
    }

    /** The unfinished record of a thread, by a scan of every record. */
    method ThreadOwner(thread: string) returns (owner: Option<string>)
      ensures owner.Some? ==> Owns(View(), owner.value, thread)
      ensures owner.None? ==> forall key :: !Owns(View(), key, thread)
    {
      var rest := records.Keys;
      while rest != {}
        invariant rest <= records.Keys
        invariant forall key :: Owns(View(), key, thread) ==> key in rest
        decreases |rest|
      {
        var key :| key in rest;
        if records[key].thread == thread && records[key].state == InProgress {
          return Some(key);
        }
        rest := rest - {key};
      }
      return None;
    }

    method ThreadStarted(thread: string) returns (started: bool)
      ensures started <==> exists key :: Starts(View(), key, thread)
    {
      var rest := records.Keys;
      while rest != {}
        invariant rest <= records.Keys
        invariant forall key :: Starts(View(), key, thread) ==> key in rest
        decreases |rest|
      {
        var key :| key in rest;
        if records[key].thread == thread && records[key].kind == Start {
          assert Starts(View(), key, thread);
          return true;
        }
        rest := rest - {key};
      }
      return false;
    }

    method Claim(kind: Kind, key: string, body: string, thread: string, binding: Option<ResumeBinding>, now: int)
      returns (reply: Reply)
      requires Valid()
      modifies this
      ensures Outcome(View(), reply) == Step(old(View()), leaseSeconds, Call.Claim(kind, key, body, thread, binding, now))
      ensures Valid()
    {
      StepKeeps(View(), leaseSeconds, Call.Claim(kind, key, body, thread, binding, now));
      if key in records {
        var existing := records[key];
        assert RecordOk(View(), key);
        if existing.kind != kind || existing.body != body || existing.thread != thread {
          return Conflict;
        }
        if existing.state == Completed {
          return Replayed(existing.response.value);
        }
        if existing.state == Abandoned {
          return Conflict;
        }
        if existing.lease > now {
          return Busy(existing.lease);
        }
        var token := issued;
        issued := issued + 1;
        records := records[key := existing.(token := Some(token), lease := now + leaseSeconds)];
        return Granted(token, now + leaseSeconds, true);
      }
      var owner := ThreadOwner(thread);
      if owner.Some? {
        if records[owner.value].lease > now {
          return Busy(records[owner.value].lease);
        }
        return Conflict;
      }
      if kind == Start {
        var started := ThreadStarted(thread);
        if started {
          return Conflict;
        }
      }
      if Rebinds(View(), thread, body, binding) {
        return Conflict;
      }
      var token := issued;
      issued := issued + 1;
      records := records[key := Record(kind, body, thread, InProgress, Some(token), now + leaseSeconds, None, None, None)];
      if binding.Some? {
        bindings := bindings[(thread, binding.value.comment) := Bound(body, binding.value)];
      }
      return Granted(token, now + leaseSeconds, false);
    }

    method Renew(key: string, token: nat, now: int) returns (reply: Reply)
      requires Valid()
      modifies this`records
      ensures Outcome(View(), reply) == Step(old(View()), leaseSeconds, Call.Renew(key, token, now))
      ensures Valid()
    {
      StepKeeps(View(), leaseSeconds, Call.Renew(key, token, now));
      if !Live(View(), key, token) {
        return Conflict;
      }
      records := records[key := records[key].(lease := now + leaseSeconds)];
      return Renewed(now + leaseSeconds);
    }

    method Finalize(key: string, token: nat, response: string) returns (reply: Reply)
      requires Valid()
      modifies this`records
      ensures Outcome(View(), reply) == Step(old(View()), leaseSeconds, Call.Finalize(key, token, response))
      ensures Valid()
    {
      StepKeeps(View(), leaseSeconds, Call.Finalize(key, token, response));
      if !Live(View(), key, token) {
        return Conflict;
      }
      records := records[key := records[key].(state := Completed, response := Some(response))];
      return Done;
    }

    method AbandonResume(key: string, thread: string, bound: ResumeBinding, operator: string, reason: string,
                         now: int, later: int)
      returns (reply: Reply)
      requires Valid()
      modifies this`records
      ensures Outcome(View(), reply)
           == Step(old(View()), leaseSeconds, Call.Abandon(key, thread, bound, operator, reason, now, later))
      ensures Valid()
    {
      StepKeeps(View(), leaseSeconds, Call.Abandon(key, thread, bound, operator, reason, now, later));
      var who, why := Strip(operator), Strip(reason);
      if who == "" || why == "" {
        return Invalid;
      }
      if key !in records || records[key].kind != Resume || records[key].thread != thread {
        return Conflict;
      }
      var record := records[key];
      if (thread, bound.comment) !in bindings || bindings[(thread, bound.comment)] != Bound(record.body, bound) {
        return Conflict;
      }
      if record.state == Completed {
        return Conflict;
      }
      if record.state == Abandoned {
        return if record.abandonedBy == Some(who) && record.reason == Some(why) then Done else Conflict;
      }
      if record.lease > now {
        return Busy(record.lease);
      }
      records := records[key := record.(state := Abandoned, token := None, lease := later,
                                        abandonedBy := Some(who), reason := Some(why))];
      return Done;
    }

    method CompletedResumeMatches(key: string, thread: string, binding: ResumeBinding) returns (matches: bool)
      ensures matches <==> ResumeMatches(View(), key, thread, binding)
    {
      if key !in records || (thread, binding.comment) !in bindings {
        return false;
      }
      var record, bound := records[key], bindings[(thread, binding.comment)];
      return record.kind == Resume && record.thread == thread && record.state == Completed
             && bound.body == record.body && bound.binding == binding;
    }
  }

  // ----- runs -----

  /** Any sequence of calls from any clients: `states[i]` is what call `i` finds. */
  ghost predicate Trace(states: seq<Repository>, calls: seq<Call>, replies: seq<Reply>, lease: int) {
    && |states| == |calls| + 1 && |replies| == |calls|
    && states[0] == Repository(map[], map[], 0)
    && forall i :: 0 <= i < |calls| ==> CallAt(states, calls, replies, lease, i)
  }

  ghost predicate CallAt(states: seq<Repository>, calls: seq<Call>, replies: seq<Reply>, lease: int, i: nat)
    requires i < |calls| == |replies| && |states| == |calls| + 1
  {
    Outcome(states[i + 1], replies[i]) == Step(states[i], lease, calls[i])
  }

  lemma {:induction false} TraceKeeps(states: seq<Repository>, calls: seq<Call>, replies: seq<Reply>, lease: int, i: nat)
    requires Trace(states, calls, replies, lease) && i < |states|
    ensures Inv(states[i])
  {
    if i > 0 {
      TraceKeeps(states, calls, replies, lease, i - 1);
      assert CallAt(states, calls, replies, lease, i - 1);
      StepKeeps(states[i - 1], lease, calls[i - 1]);
    }
  }

  /** At most one unfinished record and one start record per thread, in every reachable state. */
  lemma OnePerThread(states: seq<Repository>, calls: seq<Call>, replies: seq<Reply>, lease: int, i: nat,
                     a: string, b: string)
    requires Trace(states, calls, replies, lease) && i < |states|
    requires a in states[i].records && b in states[i].records
    requires states[i].records[a].thread == states[i].records[b].thread
    ensures states[i].records[a].state == InProgress && states[i].records[b].state == InProgress ==> a == b
    ensures states[i].records[a].kind == Start && states[i].records[b].kind == Start ==> a == b
  {
    TraceKeeps(states, calls, replies, lease, i);
    var thread := states[i].records[a].thread;
    assert Owns(states[i], a, thread) && Owns(states[i], b, thread) ==> a == b;
    assert Starts(states[i], a, thread) && Starts(states[i], b, thread) ==> a == b;
  }

  /** What one call can do to a record: nothing in a terminal state, and never to its identity. */
  ghost predicate Evolves(before: Record, after: Record) {
    && after.kind == before.kind && after.body == before.body && after.thread == before.thread
    && (before.state != InProgress ==> after == before)
  }

  /** How the repository may move in one call or many. */
  ghost predicate Advances(r: Repository, later: Repository) {
    && r.issued <= later.issued
    && (forall key :: key in r.records ==> key in later.records && Evolves(r.records[key], later.records[key]))
    && (forall key :: key in r.bindings ==> key in later.bindings && later.bindings[key] == r.bindings[key])
    && (forall key :: key in later.records ==> TokenFresh(r, later, key))
  }

  /** A token found later is either the one found before or was issued in between. */
  ghost predicate TokenFresh(r: Repository, later: Repository, key: string)
    requires key in later.records
  {
    later.records[key].token.Some? ==>
      (key in r.records && r.records[key].token == later.records[key].token) || r.issued <= later.records[key].token.value
  }

  lemma StepAdvances(r: Repository, lease: int, call: Call)
    requires Inv(r)
    ensures Advances(r, Step(r, lease, call).repository)
  {
    hide Claimed, Advances, Abandoning;
    match call
    case Claim(_, _, _, _, _, _) => ClaimAdvances(r, lease, call);
    case Abandon(_, _, _, _, _, _, _) => AbandonAdvances(r, call);
    case _ => LiveAdvances(r, lease, call);
  }

  lemma LiveAdvances(r: Repository, lease: int, call: Call)
    requires call.Renew? || call.Finalize?
    ensures Advances(r, Step(r, lease, call).repository)
  {
  }

  lemma AbandonAdvances(r: Repository, call: Call)
    requires call.Abandon?
    ensures Advances(r, Abandoning(r, call).repository)
  {
    hide Strip;
  }

  lemma ClaimAdvances(r: Repository, lease: int, call: Call)
    requires call.Claim?
    ensures Advances(r, Claimed(r, lease, call).repository)
  {
    hide Owns, Starts;
  }

  /** Records keep their identity, terminal records and comment bindings never change, tokens are never reissued. */
  lemma {:induction false} RunAdvances(states: seq<Repository>, calls: seq<Call>, replies: seq<Reply>, lease: int,
                                       i: nat, j: nat)
    requires Trace(states, calls, replies, lease) && i <= j < |states|
    ensures Advances(states[i], states[j])
  {
    if i < j {
      RunAdvances(states, calls, replies, lease, i, j - 1);
      TraceKeeps(states, calls, replies, lease, j - 1);
      assert CallAt(states, calls, replies, lease, j - 1);
      StepAdvances(states[j - 1], lease, calls[j - 1]);
      AdvancesTransitive(states[i], states[j - 1], states[j]);
    }
  }

  lemma AdvancesTransitive(a: Repository, b: Repository, c: Repository)
    requires Advances(a, b) && Advances(b, c)
    ensures Advances(a, c)
  {
    forall key | key in a.records ensures key in c.records && Evolves(a.records[key], c.records[key]) {
      assert Evolves(a.records[key], b.records[key]) && Evolves(b.records[key], c.records[key]);
    }
    forall key | key in c.records ensures TokenFresh(a, c, key) {
      assert TokenFresh(b, c, key);
      assert key in b.records ==> TokenFresh(a, b, key);
    }
  }

  /**
    No takeover: while a key has the unfinished mutation of a thread, lease expired or not,
    no other key gains a record on that thread and every record it had there is unchanged.
   */
  lemma {:induction false} NoTakeover(states: seq<Repository>, calls: seq<Call>, replies: seq<Reply>, lease: int,
                                      i: nat, j: nat, holder: string, thread: string, other: string)
    requires Trace(states, calls, replies, lease) && i <= j < |states|
    requires Owns(states[i], holder, thread) && Owns(states[j], holder, thread)
    requires other != holder && other in states[j].records && states[j].records[other].thread == thread
    ensures other in states[i].records && states[j].records[other] == states[i].records[other]
    ensures states[j].records[other].state != InProgress
    decreases j
  {
    OnePerThread(states, calls, replies, lease, j, holder, other);
    if i < j {
      assert CallAt(states, calls, replies, lease, j - 1);
      TraceKeeps(states, calls, replies, lease, j - 1);
      RunAdvances(states, calls, replies, lease, i, j - 1);
      StepAdvances(states[j - 1], lease, calls[j - 1]);
      assert Evolves(states[i].records[holder], states[j - 1].records[holder]);
      assert Evolves(states[j - 1].records[holder], states[j].records[holder]);
      assert Owns(states[j - 1], holder, thread);
      assert other in states[j - 1].records;
      assert Evolves(states[j - 1].records[other], states[j].records[other]);
      NoTakeover(states, calls, replies, lease, i, j - 1, holder, thread, other);
    }
  }

  /** At any moment one token at most is accepted for a thread. */
  lemma OneLiveToken(states: seq<Repository>, calls: seq<Call>, replies: seq<Reply>, lease: int, i: nat,
                     a: string, t: nat, b: string, u: nat)
    requires Trace(states, calls, replies, lease) && i < |states|
    requires Live(states[i], a, t) && Live(states[i], b, u)
    requires states[i].records[a].thread == states[i].records[b].thread
    ensures a == b && t == u
  {
    OnePerThread(states, calls, replies, lease, i, a, b);
  }

  /** A token that is not live for its key once it was handed out stays rejected for ever. */
  lemma StaleForever(states: seq<Repository>, calls: seq<Call>, replies: seq<Reply>, lease: int,
                     i: nat, j: nat, key: string, token: nat)
    requires Trace(states, calls, replies, lease) && i <= j < |states|
    requires token < states[i].issued && !Live(states[i], key, token)
    ensures !Live(states[j], key, token)
    ensures forall now :: Step(states[j], lease, Call.Renew(key, token, now)) == Outcome(states[j], Conflict)
    ensures forall response :: Step(states[j], lease, Call.Finalize(key, token, response)) == Outcome(states[j], Conflict)
  {
    RunAdvances(states, calls, replies, lease, i, j);
    if key in states[j].records {
      assert TokenFresh(states[i], states[j], key);
      if key in states[i].records {
        assert Evolves(states[i].records[key], states[j].records[key]);
      }
    }
  }

  /** Every granted token is new. */
  lemma GrantsDiffer(states: seq<Repository>, calls: seq<Call>, replies: seq<Reply>, lease: int, i: nat, j: nat)
    requires Trace(states, calls, replies, lease) && i < j < |calls|
    requires replies[i].Granted? && replies[j].Granted?
    ensures replies[i].token < replies[j].token
  {
    RunAdvances(states, calls, replies, lease, i + 1, j);
    assert CallAt(states, calls, replies, lease, i) && CallAt(states, calls, replies, lease, j);
    hide Step, Trace, TokenFresh, Evolves;
    GrantIssues(states[i], lease, calls[i]);
    GrantIssues(states[j], lease, calls[j]);
  }

  lemma GrantIssues(r: Repository, lease: int, call: Call)
    requires Step(r, lease, call).reply.Granted?
    ensures Step(r, lease, call).reply.token == r.issued
    ensures Step(r, lease, call).repository.issued == r.issued + 1
  {
  }

  ghost predicate FinalizedBy(call: Call, reply: Reply, key: string, response: string) {
    call.Finalize? && call.key == key && call.response == response && reply == Done
  }

  /** After a successful finalize no other finalize of the key succeeds, and every replay returns its response. */
  lemma FinalizedOnce(states: seq<Repository>, calls: seq<Call>, replies: seq<Reply>, lease: int, i: nat, j: nat,
                      key: string, response: string)
    requires Trace(states, calls, replies, lease) && i < j < |calls|
    requires FinalizedBy(calls[i], replies[i], key, response)
    ensures forall any :: !FinalizedBy(calls[j], replies[j], key, any)
    ensures calls[j].Claim? && calls[j].key == key ==> replies[j] == Conflict || replies[j] == Replayed(response)
    ensures key in states[i].records
    ensures calls[j].Claim? && calls[j].key == key ==>
      (replies[j] == Replayed(response) <==> SameRequest(states[i].records[key], calls[j]))
  {
    assert CallAt(states, calls, replies, lease, i) && CallAt(states, calls, replies, lease, j);
    RunAdvances(states, calls, replies, lease, i + 1, j);
    assert Evolves(states[i + 1].records[key], states[j].records[key]);
  }

  /** A completed record comes from one accepted finalize, and so does every replay. */
  lemma {:induction false} CompletedWasFinalized(states: seq<Repository>, calls: seq<Call>, replies: seq<Reply>,
                                                 lease: int, j: nat, key: string)
    requires Trace(states, calls, replies, lease) && j < |states|
    requires key in states[j].records && states[j].records[key].state == Completed
    ensures states[j].records[key].response.Some?
    ensures exists i :: 0 <= i < j && FinalizedBy(calls[i], replies[i], key, states[j].records[key].response.value)
  {
    TraceKeeps(states, calls, replies, lease, j);
    assert RecordOk(states[j], key);
    assert j > 0;
    assert CallAt(states, calls, replies, lease, j - 1);
    var response := states[j].records[key].response.value;
    if key in states[j - 1].records && states[j - 1].records[key].state == Completed {
      TraceKeeps(states, calls, replies, lease, j - 1);
      StepAdvances(states[j - 1], lease, calls[j - 1]);
      assert Evolves(states[j - 1].records[key], states[j].records[key]);
      CompletedWasFinalized(states, calls, replies, lease, j - 1, key);
    } else {
      assert FinalizedBy(calls[j - 1], replies[j - 1], key, response);
    }
  }

  /** An abandoned resume is never granted, finalized or replayed again, and keeps its attribution. */
  lemma AbandonedForever(states: seq<Repository>, calls: seq<Call>, replies: seq<Reply>, lease: int, i: nat, j: nat,
                         key: string)
    requires Trace(states, calls, replies, lease) && i <= j < |calls|
    requires key in states[i].records && states[i].records[key].state == Abandoned
    ensures key in states[j].records && states[j].records[key] == states[i].records[key]
    ensures (calls[j].Claim? || calls[j].Renew? || calls[j].Finalize?) && calls[j].key == key ==> replies[j] == Conflict
    ensures forall thread, binding :: !ResumeMatches(states[j], key, thread, binding)
  {
    RunAdvances(states, calls, replies, lease, i, j);
    assert Evolves(states[i].records[key], states[j].records[key]);
    assert CallAt(states, calls, replies, lease, j);
  }

  /** Once a completed resume matches a comment it always does. */
  lemma MatchIsPermanent(states: seq<Repository>, calls: seq<Call>, replies: seq<Reply>, lease: int, i: nat, j: nat,
                         key: string, thread: string, binding: ResumeBinding)
    requires Trace(states, calls, replies, lease) && i <= j < |states|
    requires ResumeMatches(states[i], key, thread, binding)
    ensures ResumeMatches(states[j], key, thread, binding)
  {
    RunAdvances(states, calls, replies, lease, i, j);
    assert Evolves(states[i].records[key], states[j].records[key]);
    assert (thread, binding.comment) in states[j].bindings;
  }
}
