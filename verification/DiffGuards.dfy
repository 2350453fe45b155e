/**
  The checks around every operation of a diff, over every store it may meet and not only the
  one that was predicted. The conditions are stated from the plan and the snapshot.
 */
module DiffGuards {
  import opened Basics
  import opened Backlog
  import opened Operations
  import opened PlanDiff
  import opened DiffContents

  /** What plan and snapshot say the work package of `op` should look like on its arrival. */
  ghost predicate Anticipates(plan: Plan, snap: Snapshot, op: Operation, sight: Sight) {
    || (op.action.MarkSuperseded? && op.identity in snap.packages && Shows(snap.packages[op.identity], sight))
    || (exists item :: item in plan.items && op.identity == Identity(plan.id, item.key)
                       && Foreseen(plan, snap, item, op.action, sight))
  }

  /** One work package carries the identity, and no more than one. */
  predicate Alone(w: World, id: Identity) {
    id in w.packages && id !in w.duplicates
  }

  lemma ForeseenOnce(plan: Plan, snap: Snapshot, item: Item, action: Action, a: Sight, b: Sight)
    requires Foreseen(plan, snap, item, action, a) && Foreseen(plan, snap, item, action, b)
    ensures a == b
  {
    hide Describes, Managed, Wanted, Before, Held;
    ManagedExact(plan, item, a.hash);
    ManagedExact(plan, item, b.hash);
    assert a.relations == b.relations;
  }

  lemma SameItem(items: seq<Item>, a: Item, b: Item)
    requires UniqueKeys(items) && a in items && b in items && a.key == b.key
    ensures a == b
  {
    ByKeyUnique(items, a);
    ByKeyUnique(items, b);
  }

  lemma ShownOnce(package: Package, a: Sight, b: Sight)
    requires Shows(package, a) && Shows(package, b)
    ensures a == b
  {
  }

  predicate Guards(op: Operation) {
    !op.action.CreateWorkPackage? && !op.action.RecordAudit?
  }

  lemma ItemSight(plan: Plan, snap: Snapshot, op: Operation, item: Item) returns (sight: Sight)
    requires UniqueKeys(plan.items) && item in plan.items && ForItem(plan, snap, item, op) && Guards(op)
    ensures Demands(op, sight) && forall other :: Anticipates(plan, snap, op, other) <==> other == sight
  {
    hide UniqueKeys, Foreseen, Demands, Shows;
    sight :| Foreseen(plan, snap, item, op.action, sight) && Demands(op, sight);
    ItemRevises(plan, snap, op, item);
    forall other | Anticipates(plan, snap, op, other) ensures other == sight {
      var owner :| owner in plan.items && op.identity == Identity(plan.id, owner.key)
                   && Foreseen(plan, snap, owner, op.action, other);
      SameItem(plan.items, owner, item);
      ForeseenOnce(plan, snap, item, op.action, other, sight);
    }
  }

  lemma ItemRevises(plan: Plan, snap: Snapshot, op: Operation, item: Item)
    requires ForItem(plan, snap, item, op)
    ensures !op.action.MarkSuperseded? && op.identity == Identity(plan.id, item.key)
  {
  }

  lemma FormerSight(plan: Plan, snap: Snapshot, op: Operation) returns (sight: Sight)
    requires ForFormer(plan, snap, op)
    ensures Demands(op, sight) && forall other :: Anticipates(plan, snap, op, other) <==> other == sight
  {
    hide Demands;
    sight :| Shows(snap.packages[op.identity], sight) && Demands(op, sight);
    forall other | Anticipates(plan, snap, op, other) ensures other == sight {
      ShownOnce(snap.packages[op.identity], other, sight);
    }
  }

  /** Exactly one sight is anticipated of every work package an operation is about to change, and demanded of it. */
  lemma OneSight(plan: Plan, snap: Snapshot, op: Operation) returns (sight: Sight)
    requires UniqueKeys(plan.items) && op in Diff(plan, snap) && Guards(op)
    ensures Demands(op, sight) && forall other :: Anticipates(plan, snap, op, other) <==> other == sight
  {
    hide Diff, UniqueKeys, ForItem, ForFormer, Anticipates, Demands, Labelled;
    DiffExact(plan, snap, op);
    if ForFormer(plan, snap, op) {
      sight := FormerSight(plan, snap, op);
    } else {
      var item :| item in plan.items && ForItem(plan, snap, item, op);
      sight := ItemSight(plan, snap, op, item);
    }
  }

  /** A creation of the diff and the item it creates. */
  lemma OneCreation(plan: Plan, snap: Snapshot, op: Operation)
    requires op in Diff(plan, snap) && op.action.CreateWorkPackage?
    ensures op.preconditions.identityAbsent && !op.preconditions.identityResolved
    ensures op.preconditions.expectedHash == None && op.preconditions.topology == None
    ensures op.after == Some(op.action.fields) && op.action.evidence == "pending"
  {
    hide Diff;
    DiffExact(plan, snap, op);
  }

  // ----- the publisher's check -----

  /** When the publisher should go on to record an intent. */
  ghost predicate MayProceed(plan: Plan, snap: Snapshot, op: Operation, w: World) {
    match op.action
    case RecordAudit(_) => true
    case CreateWorkPackage(_, _) => op.identity !in w.packages && op.identity !in w.duplicates
    case _ =>
      Alone(w, op.identity) && exists sight :: Anticipates(plan, snap, op, sight) && Reads(w.packages[op.identity], sight)
  }

  lemma CheckDemands(op: Operation, sight: Sight, w: World)
    requires Demands(op, sight) && Guards(op)
    ensures PublisherCheck(op, w) <==> Alone(w, op.identity) && Reads(w.packages[op.identity], sight)
  {
  }

  /**
    Over every store, the publisher's check passes if and only if the work package to change
    exists, is the only one of its identity and reads as anticipated, or the one to create does
    not exist.
   */
  lemma PublisherCheckExact(plan: Plan, snap: Snapshot, op: Operation, w: World)
    requires UniqueKeys(plan.items) && op in Diff(plan, snap)
    ensures PublisherCheck(op, w) <==> MayProceed(plan, snap, op, w)
  {
    hide Diff, UniqueKeys, Anticipates, Reads, Demands;
    if op.action.CreateWorkPackage? {
      OneCreation(plan, snap, op);
    } else if Guards(op) {
      hide PublisherCheck;
      var sight := OneSight(plan, snap, op);
      CheckDemands(op, sight, w);
    }
  }

  // ----- the adapter's check -----

  /** When the adapter should send its request. */
  ghost predicate MayCommit(plan: Plan, snap: Snapshot, op: Operation, w: World) {
    match op.action
    case RecordAudit(_) => true
    case CreateWorkPackage(_, _) => op.identity !in w.packages
    case CreateRelation(relation) => Alone(w, relation.target) && Placed(plan, snap, op, w)
    case RemoveManagedRelation(relation) => Alone(w, relation.target) && Placed(plan, snap, op, w)
    case SetParent(parent) =>
      && (parent.Some? ==> Alone(w, parent.value))
      && Alone(w, op.identity)
      && exists sight :: Anticipates(plan, snap, op, sight) && Reads(w.packages[op.identity], sight)
    case _ =>
      && Alone(w, op.identity)
      && exists sight :: Anticipates(plan, snap, op, sight) && Reads(w.packages[op.identity], sight)
  }

  /** Parent and relations are as anticipated, whatever the managed hash. */
  ghost predicate Placed(plan: Plan, snap: Snapshot, op: Operation, w: World) {
    && Alone(w, op.identity)
    && exists sight :: Anticipates(plan, snap, op, sight) && ReadPlace(w.packages[op.identity], sight)
  }

  predicate ReadPlace(package: Package, sight: Sight) {
    ReadUnder(package.parent, sight.parent, sight.unmanaged) && package.relations == sight.relations
  }

  predicate Relates(action: Action) {
    action.CreateRelation? || action.RemoveManagedRelation?
  }

  lemma AcceptDemands(op: Operation, sight: Sight, w: World)
    requires Demands(op, sight) && Guards(op)
    ensures Relates(op.action) ==>
      (AdapterAccepts(op, w) <==>
         Alone(w, op.identity) && ReadPlace(w.packages[op.identity], sight) && Alone(w, op.action.relation.target))
    ensures !Relates(op.action) ==>
      (AdapterAccepts(op, w) <==>
         && Alone(w, op.identity) && Reads(w.packages[op.identity], sight)
         && (op.action.SetParent? && op.action.parent.Some? ==> Alone(w, op.action.parent.value)))
  {
  }

  /** Over every store, the adapter's own check. */
  lemma AdapterExact(plan: Plan, snap: Snapshot, op: Operation, w: World)
    requires UniqueKeys(plan.items) && op in Diff(plan, snap)
    ensures AdapterAccepts(op, w) <==> MayCommit(plan, snap, op, w)
  {
    hide Diff, UniqueKeys, Anticipates, Reads, ReadPlace, Demands;
    if Guards(op) {
      hide AdapterAccepts;
      var sight := OneSight(plan, snap, op);
      AcceptDemands(op, sight, w);
    }
  }

  // ----- the recovery gate -----

  predicate CreatedAs(package: Package, fields: ManagedFields) {
    && package.hash == fields && package.evidence == Some("pending")
    && package.parent == NoParent && package.relations == {} && !package.status.Superseded?
  }

  /** What the work package reads like once the request has had its effect on what was anticipated. */
  predicate Shaped(action: Action, sight: Sight, package: Package) {
    match action
    case UpdateManagedFields(fields) => package.hash == fields && ReadPlace(package, sight)
    case SetParent(parent) => ReadUnder(package.parent, parent, false) && package.relations == sight.relations
    case CreateRelation(relation) =>
      ReadUnder(package.parent, sight.parent, sight.unmanaged) && package.relations == sight.relations + {relation}
    case RemoveManagedRelation(relation) =>
      ReadUnder(package.parent, sight.parent, sight.unmanaged) && package.relations == sight.relations - {relation}
    case ReactivateWorkPackage => package.status == Ready && ReadPlace(package, sight)
    case MarkSuperseded => package.status == Superseded && ReadPlace(package, sight)
    case _ => false
  }

  /** When an observer should conclude that the effect is there. */
  ghost predicate HasLanded(plan: Plan, snap: Snapshot, op: Operation, w: World) {
    match op.action
    case RecordAudit(_) => false
    case CreateWorkPackage(fields, _) => Alone(w, op.identity) && CreatedAs(w.packages[op.identity], fields)
    case _ =>
      && Alone(w, op.identity)
      && exists sight :: Anticipates(plan, snap, op, sight) && Shaped(op.action, sight, w.packages[op.identity])
  }

  /** The relation to add is not there yet, the one to remove still is. */
  predicate Fresh(action: Action, sight: Sight) {
    && (action.CreateRelation? ==> action.relation !in sight.relations)
    && (action.RemoveManagedRelation? ==> action.relation in sight.relations)
  }

  lemma SightFresh(plan: Plan, snap: Snapshot, op: Operation, sight: Sight)
    requires op in Diff(plan, snap) && Guards(op)
    requires UniqueKeys(plan.items) && Anticipates(plan, snap, op, sight)
    ensures Fresh(op.action, sight)
  {
    hide Diff, UniqueKeys, Wanted, Held, Describes;
    DiffExact(plan, snap, op);
    if Relates(op.action) {
      var item :| item in plan.items && ForItem(plan, snap, item, op);
      var owner :| owner in plan.items && op.identity == Identity(plan.id, owner.key)
                   && Foreseen(plan, snap, owner, op.action, sight);
      SameItem(plan.items, owner, item);
    }
  }

  lemma GateDemands(op: Operation, sight: Sight, w: World)
    requires Demands(op, sight) && Guards(op) && Fresh(op.action, sight)
    ensures Postcondition(op, w)
         == if op.identity in w.duplicates then Malformed
            else Answer(op.identity in w.packages && Shaped(op.action, sight, w.packages[op.identity]))
  {
  }

  /**
    Over every store, the recovery gate: it raises exactly on a duplicated identity, answers
    landed exactly when the effect is there, and never vouches for an audit record.
   */
  lemma GateExact(plan: Plan, snap: Snapshot, op: Operation, w: World)
    requires UniqueKeys(plan.items) && op in Diff(plan, snap)
    ensures Postcondition(op, w) == Malformed <==> !op.action.RecordAudit? && op.identity in w.duplicates
    ensures Postcondition(op, w) == Landed <==> HasLanded(plan, snap, op, w)
  {
    hide Diff, UniqueKeys, Anticipates, Shaped, Demands, Fresh;
    if op.action.CreateWorkPackage? {
      OneCreation(plan, snap, op);
    } else if Guards(op) {
      hide Postcondition;
      var sight := OneSight(plan, snap, op);
      SightFresh(plan, snap, op, sight);
      GateDemands(op, sight, w);
    }
  }
}
