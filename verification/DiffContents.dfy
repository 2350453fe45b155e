/**
  The operation list of `plan_diff` by its contents: which operations it holds, with which
  payload and preconditions, stated from the plan and the snapshot alone.
 */
module DiffContents {
  import opened Basics
  import opened Ordering
  import opened Backlog
  import opened Operations
  import opened PlanDiff
  import opened DiffTheorems

  // ----- the managed projection -----

  /** A binding of the replan scope that names `key`, with none before it. */
  ghost predicate FirstBinding(bindings: seq<NodeBinding>, key: string, i: nat) {
    i < |bindings| && bindings[i].nodeKey == key && forall j: nat | j < i :: bindings[j].nodeKey != key
  }

  ghost predicate Retained(plan: Plan, key: string) {
    plan.replan.Some? && exists binding :: binding in plan.replan.value.bindings && binding.nodeKey == key
  }

  /** Version and commit are those of the retained binding if there is one, otherwise the plan's own. */
  ghost predicate OwnedBy(plan: Plan, key: string, provenance: Provenance) {
    if Retained(plan, key) then
      forall i: nat | FirstBinding(plan.replan.value.bindings, key, i) ::
        && provenance.version == plan.replan.value.bindings[i].version
        && provenance.commit == Some(plan.replan.value.bindings[i].commit)
    else provenance.version == plan.version && provenance.commit == plan.approvedCommit
  }

  /** `fields` carry what the plan says of `item`. */
  ghost predicate Describes(plan: Plan, item: Item, fields: ManagedFields) {
    && fields.plan == plan.id
    && fields.key == item.key
    && fields.content == item.content
    && OwnedBy(plan, item.key, fields.provenance)
  }

  lemma {:induction false} BindingFound(bindings: seq<NodeBinding>, key: string)
    ensures FindBinding(bindings, key).None? <==> forall binding :: binding in bindings ==> binding.nodeKey != key
    ensures FindBinding(bindings, key).Some? ==>
      exists i: nat :: FirstBinding(bindings, key, i) && bindings[i] == FindBinding(bindings, key).value
  {
    if bindings != [] {
      BindingFound(bindings[1..], key);
      assert bindings == [bindings[0]] + bindings[1..];
      if bindings[0].nodeKey == key {
        assert FirstBinding(bindings, key, 0);
      } else if FindBinding(bindings[1..], key).Some? {
        var i: nat :| FirstBinding(bindings[1..], key, i) && bindings[1..][i] == FindBinding(bindings[1..], key).value;
        forall j: nat | j < i + 1 ensures bindings[j].nodeKey != key {
          if j > 0 {
            assert bindings[1..][j - 1] == bindings[j];
          }
        }
        assert FirstBinding(bindings, key, i + 1);
      }
    }
  }

  lemma FirstBindingUnique(bindings: seq<NodeBinding>, key: string, i: nat, j: nat)
    requires FirstBinding(bindings, key, i) && FirstBinding(bindings, key, j)
    ensures i == j
  {
  }

  lemma BindingExact(plan: Plan, key: string, provenance: Provenance)
    ensures provenance == EffectiveBinding(plan, plan.approvedCommit, key) <==> OwnedBy(plan, key, provenance)
  {
    if plan.replan.Some? {
      var bindings := plan.replan.value.bindings;
      BindingFound(bindings, key);
      if FindBinding(bindings, key).Some? {
        var i: nat :| FirstBinding(bindings, key, i) && bindings[i] == FindBinding(bindings, key).value;
        forall j: nat | FirstBinding(bindings, key, j) ensures j == i {
          FirstBindingUnique(bindings, key, i, j);
        }
        assert bindings[i] in bindings && Retained(plan, key);
      }
    }
  }

  /** The digested projection is determined by the fields of the plan and the item. */
  lemma ManagedExact(plan: Plan, item: Item, fields: ManagedFields)
    ensures fields == Managed(plan, item) <==> Describes(plan, item, fields)
  {
    hide OwnedBy, EffectiveBinding;
    BindingExact(plan, item.key, fields.provenance);
  }

  // ----- the wanted relations -----

  /** Some item with key `source` declares `related_to` towards `target`. */
  ghost predicate Declared(plan: Plan, source: string, target: string) {
    exists item :: item in plan.items && item.key == source && target in item.relatedTo
  }

  /** The plan wants `item` to own `relation`. */
  ghost predicate Wanted(plan: Plan, item: Item, relation: Relation) {
    && relation.target.plan == plan.id
    && var key := relation.target.key;
       match relation.kind
       case BlockedBy => key in item.blockedBy
       case SequenceAfter => key in item.sequenceAfter
       case DecisionRequired => key in item.decisionRequired
       case GovernedBy => key in item.decisions
       case RelatedTo => TextLe(item.key, key) && (Declared(plan, item.key, key) || Declared(plan, key, item.key))
  }

  lemma RelatedPairExact(plan: Plan, low: string, high: string)
    ensures (low, high) in RelatedPairs(plan.items) <==>
      TextLe(low, high) && (Declared(plan, low, high) || Declared(plan, high, low))
  {
    if (low, high) in RelatedPairs(plan.items) {
      var item, target :| item in plan.items && target in item.relatedTo && OrderedPair(item.key, target) == (low, high);
      TextLeTotal(item.key, target);
      assert Declared(plan, item.key, target);
    }
    if item :| item in plan.items && item.key == low && high in item.relatedTo && TextLe(low, high) {
      assert OrderedPair(item.key, high) == (low, high);
    }
    if item :| item in plan.items && item.key == high && low in item.relatedTo && TextLe(low, high) {
      if TextLe(high, low) {
        TextLeAntisymmetric(low, high);
      }
      assert OrderedPair(item.key, low) == (low, high);
    }
  }

  lemma DesiredExact(plan: Plan, item: Item, relation: Relation)
    ensures relation in DesiredRelations(plan, item) <==> Wanted(plan, item, relation)
  {
    hide RelatedPairs, TextLe, Declared;
    RelatedPairExact(plan, item.key, relation.target.key);
    if Wanted(plan, item, relation) && relation.kind == RelatedTo {
      var pair := (item.key, relation.target.key);
      assert pair in RelatedPairs(plan.items) && relation == Relation(RelatedTo, Identity(plan.id, pair.1));
    }
  }

  // ----- the order of relations -----

  predicate TextLess(a: string, b: string) {
    a != b && TextLe(a, b)
  }

  /** The kind comes first, by its name, then the plan and the key of the other end. */
  predicate Before(a: Relation, b: Relation) {
    if a.kind != b.kind then TextLess(KindName(a.kind), KindName(b.kind))
    else if a.target.plan != b.target.plan then TextLess(a.target.plan, b.target.plan)
    else TextLess(a.target.key, b.target.key)
  }

  lemma KindsByName(a: RelationKind, b: RelationKind)
    ensures KindRank(a) < KindRank(b) <==> TextLess(KindName(a), KindName(b))
  {
  }

  lemma BeforeExact(a: Relation, b: Relation)
    ensures Before(a, b) <==> a != b && RelationLe(a, b)
  {
    KindsByName(a.kind, b.kind);
  }

  // ----- what one operation is guarded by -----

  /** Managed hash, parent and relations of a work package as one read gives them. */
  datatype Sight = Sight(hash: Hash, parent: Option<Identity>, unmanaged: bool, relations: set<Relation>)

  /** A listing gives the identity of a parent that it lists itself. */
  predicate ListedUnder(parent: Parent, identity: Option<Identity>, unmanaged: bool) {
    match parent
    case NoParent => identity == None && !unmanaged
    case UnmanagedParent => identity == None && unmanaged
    case ForeignParent(_) => identity == None && unmanaged
    case ManagedParent(managed) => identity == Some(managed) && !unmanaged
  }

  /** The read of a single work package gives the identity of any parent that carries one. */
  predicate ReadUnder(parent: Parent, identity: Option<Identity>, unmanaged: bool) {
    match parent
    case NoParent => identity == None && !unmanaged
    case UnmanagedParent => identity == None && unmanaged
    case ForeignParent(managed) => identity == Some(managed) && !unmanaged
    case ManagedParent(managed) => identity == Some(managed) && !unmanaged
  }

  predicate Shows(package: Package, sight: Sight) {
    && sight.hash == package.hash
    && ListedUnder(package.parent, sight.parent, sight.unmanaged)
    && sight.relations == package.relations
  }

  predicate Reads(package: Package, sight: Sight) {
    && package.hash == sight.hash
    && ReadUnder(package.parent, sight.parent, sight.unmanaged)
    && package.relations == sight.relations
  }

  predicate WantsParent(plan: Plan, item: Item, parent: Option<Identity>) {
    match item.parent
    case None => parent == None
    case Some(key) => parent == Some(Identity(plan.id, key))
  }

  ghost predicate Held(plan: Plan, snap: Snapshot, item: Item, relation: Relation) {
    var id := Identity(plan.id, item.key);
    id in snap.packages && relation in snap.packages[id].relations
  }

  /** The snapshot shows the node where the plan wants it. */
  predicate InPlace(plan: Plan, item: Item, parent: Parent) {
    match parent
    case NoParent => item.parent.None?
    case UnmanagedParent => false
    case ForeignParent(_) => false
    case ManagedParent(identity) => item.parent == Some(identity.key) && identity.plan == plan.id
  }

  /** The plan calls for `action` on the node of `item`. */
  ghost predicate Needed(plan: Plan, snap: Snapshot, item: Item, action: Action) {
    var id := Identity(plan.id, item.key);
    match action
    case CreateWorkPackage(fields, evidence) =>
      id !in snap.packages && Describes(plan, item, fields) && evidence == "pending"
    case ReactivateWorkPackage => id in snap.packages && snap.packages[id].status.Superseded?
    case UpdateManagedFields(fields) =>
      id in snap.packages && Describes(plan, item, fields) && snap.packages[id].hash != fields
    case SetParent(parent) =>
      && WantsParent(plan, item, parent)
      && (if id in snap.packages then !InPlace(plan, item, snap.packages[id].parent) else item.parent.Some?)
    case CreateRelation(relation) => Wanted(plan, item, relation) && !Held(plan, snap, item, relation)
    case RemoveManagedRelation(relation) => Held(plan, snap, item, relation) && !Wanted(plan, item, relation)
    case MarkSuperseded => false
    case RecordAudit(_) => false
  }

  /** Parent and relations of the node before its parent is set. */
  ghost predicate Untouched(plan: Plan, snap: Snapshot, item: Item, sight: Sight) {
    var id := Identity(plan.id, item.key);
    if id in snap.packages then
      && ListedUnder(snap.packages[id].parent, sight.parent, sight.unmanaged)
      && sight.relations == snap.packages[id].relations
    else sight.parent == None && !sight.unmanaged && sight.relations == {}
  }

  /** The node once its fields and parent are as planned; the flag of an unmanaged parent stays as listed. */
  ghost predicate Settling(plan: Plan, snap: Snapshot, item: Item, sight: Sight) {
    var id := Identity(plan.id, item.key);
    && Describes(plan, item, sight.hash)
    && WantsParent(plan, item, sight.parent)
    && (sight.unmanaged <==>
          id in snap.packages && (snap.packages[id].parent.UnmanagedParent? || snap.packages[id].parent.ForeignParent?))
  }

  /** What the node of `item` should look like when `action` arrives. */
  ghost predicate Foreseen(plan: Plan, snap: Snapshot, item: Item, action: Action, sight: Sight) {
    var id := Identity(plan.id, item.key);
    match action
    case ReactivateWorkPackage => id in snap.packages && Shows(snap.packages[id], sight)
    case UpdateManagedFields(_) => id in snap.packages && Shows(snap.packages[id], sight)
    case SetParent(_) => Describes(plan, item, sight.hash) && Untouched(plan, snap, item, sight)
    case CreateRelation(relation) =>
      && Settling(plan, snap, item, sight)
      && forall other :: other in sight.relations <==>
           Held(plan, snap, item, other) || (Wanted(plan, item, other) && Before(other, relation))
    case RemoveManagedRelation(relation) =>
      && Settling(plan, snap, item, sight)
      && forall other :: other in sight.relations <==>
           Wanted(plan, item, other) || (Held(plan, snap, item, other) && !Before(other, relation))
    case _ => false
  }

  /** The operation is named by its content and addressed to this plan and snapshot. */
  ghost predicate Labelled(plan: Plan, snap: Snapshot, op: Operation) {
    && op.id == OperationId(plan.id, plan.version, op.action, op.identity, op.preconditions)
    && op.preconditions.publication == plan.id
    && op.preconditions.version == plan.version
    && op.preconditions.snapshot == snap.digest
  }

  /** The preconditions demand exactly `sight`. */
  ghost predicate Demands(op: Operation, sight: Sight) {
    && !op.preconditions.identityAbsent && op.preconditions.identityResolved
    && op.preconditions.expectedHash == Some(sight.hash)
    && op.preconditions.topology == Some(Topology(sight.parent, sight.unmanaged, sight.relations))
    && op.before == Some(sight.hash)
    && op.after == Some(if op.action.UpdateManagedFields? then op.action.fields else sight.hash)
  }

  ghost predicate ForItem(plan: Plan, snap: Snapshot, item: Item, op: Operation) {
    && op.identity == Identity(plan.id, item.key)
    && Needed(plan, snap, item, op.action)
    && if op.action.CreateWorkPackage? then
         && op.preconditions.identityAbsent && !op.preconditions.identityResolved
         && op.preconditions.expectedHash == None && op.preconditions.topology == None
         && op.before == None && op.after == Some(op.action.fields)
       else exists sight :: Foreseen(plan, snap, item, op.action, sight) && Demands(op, sight)
  }

  /** A package of the plan that no item names any more and that is still in use. */
  ghost predicate Former(plan: Plan, snap: Snapshot, id: Identity) {
    && id in snap.packages && id.plan == plan.id && !snap.packages[id].status.Superseded?
    && forall item :: item in plan.items ==> item.key != id.key
  }

  ghost predicate ForFormer(plan: Plan, snap: Snapshot, op: Operation) {
    && op.action.MarkSuperseded?
    && Former(plan, snap, op.identity)
    && exists sight :: Shows(snap.packages[op.identity], sight) && Demands(op, sight)
  }

  /** Every operation the plan calls for against the snapshot, except the audit record. */
  ghost predicate CalledFor(plan: Plan, snap: Snapshot, op: Operation) {
    && Labelled(plan, snap, op)
    && (ForFormer(plan, snap, op) || exists item :: item in plan.items && ForItem(plan, snap, item, op))
  }

  // ----- one node -----

  /** The snapshot read of an existing node. */
  function ListedSight(package: Package): Sight {
    var shown := AsListed(package);
    Sight(shown.hash, ParentIdentity(shown), shown.parent.UnmanagedParent?, shown.relations)
  }

  lemma ListedSightExact(package: Package)
    ensures forall sight :: Shows(package, sight) <==> sight == ListedSight(package)
  {
  }

  /** The operation that demands `sight`. */
  function Guarded(plan: Plan, snap: Snapshot, action: Action, id: Identity, sight: Sight): Operation {
    Make(plan, action, id, Some(sight.hash), Some(if action.UpdateManagedFields? then action.fields else sight.hash),
         Base(plan, snap, Some(sight.hash)).(
           identityResolved := true,
           topology := Some(Topology(sight.parent, sight.unmanaged, sight.relations))))
  }

  lemma GuardedExact(plan: Plan, snap: Snapshot, op: Operation)
    ensures forall sight :: Labelled(plan, snap, op) && Demands(op, sight) <==>
      op == Guarded(plan, snap, op.action, op.identity, sight)
  {
  }

  lemma GuardedLabel(plan: Plan, snap: Snapshot, action: Action, id: Identity, sight: Sight)
    ensures Guarded(plan, snap, action, id, sight).action == action && Guarded(plan, snap, action, id, sight).identity == id
  {
  }

  lemma StatusExact(plan: Plan, snap: Snapshot, item: Item, op: Operation)
    ensures op in StatusOps(plan, snap, item) <==>
      op.action.ReactivateWorkPackage? && Labelled(plan, snap, op) && ForItem(plan, snap, item, op)
  {
    hide Labelled, Demands, Shows, Guarded;
    var id := IdOf(plan, item);
    GuardedExact(plan, snap, op);
    if id in snap.packages && snap.packages[id].status.Superseded? {
      var package := snap.packages[id];
      ListedSightExact(package);
      ReactivationMade(plan, snap, item);
    }
  }

  lemma ReactivationMade(plan: Plan, snap: Snapshot, item: Item)
    requires IdOf(plan, item) in snap.packages && snap.packages[IdOf(plan, item)].status.Superseded?
    ensures StatusOps(plan, snap, item)
         == [Guarded(plan, snap, ReactivateWorkPackage, IdOf(plan, item), ListedSight(snap.packages[IdOf(plan, item)]))]
  {
  }

  lemma ContentExact(plan: Plan, snap: Snapshot, item: Item, op: Operation)
    ensures op in ContentOps(plan, snap, item) <==>
      op.action.UpdateManagedFields? && Labelled(plan, snap, op) && ForItem(plan, snap, item, op)
  {
    hide Labelled, Demands, Shows, Guarded, Describes, Managed, ContentOps;
    var id := IdOf(plan, item);
    GuardedExact(plan, snap, op);
    if op.action.UpdateManagedFields? {
      ManagedExact(plan, item, op.action.fields);
    }
    RevisionMade(plan, snap, item);
    if id in snap.packages {
      ListedSightExact(snap.packages[id]);
      GuardedLabel(plan, snap, UpdateManagedFields(Managed(plan, item)), id, ListedSight(snap.packages[id]));
    }
  }

  lemma RevisionMade(plan: Plan, snap: Snapshot, item: Item)
    ensures ContentOps(plan, snap, item)
         == if IdOf(plan, item) !in snap.packages || snap.packages[IdOf(plan, item)].hash == Managed(plan, item) then []
            else [Guarded(plan, snap, UpdateManagedFields(Managed(plan, item)), IdOf(plan, item),
                          ListedSight(snap.packages[IdOf(plan, item)]))]
  {
    hide Managed;
  }

  // ----- parents -----

  /** What a node shows when its parent is set. */
  function ParentSight(plan: Plan, snap: Snapshot, item: Item): Sight {
    var package := Lookup(snap, IdOf(plan, item));
    Sight(Managed(plan, item), CurrentParent(package), UnmanagedFlag(package), CurrentRelations(package))
  }

  lemma ParentSightExact(plan: Plan, snap: Snapshot, item: Item, sight: Sight)
    ensures Describes(plan, item, sight.hash) && Untouched(plan, snap, item, sight) <==> sight == ParentSight(plan, snap, item)
  {
    hide Describes, Managed;
    ManagedExact(plan, item, sight.hash);
  }

  lemma ParentNeeded(plan: Plan, snap: Snapshot, item: Item, parent: Option<Identity>)
    ensures Needed(plan, snap, item, SetParent(parent)) <==>
      ParentChanged(plan, item, Lookup(snap, IdOf(plan, item))) && parent == DesiredParent(plan, item)
  {
  }

  lemma ParentMade(plan: Plan, snap: Snapshot, item: Item)
    ensures ParentOps(plan, snap, item)
         == if !ParentChanged(plan, item, Lookup(snap, IdOf(plan, item))) then []
            else [Guarded(plan, snap, SetParent(DesiredParent(plan, item)), IdOf(plan, item), ParentSight(plan, snap, item))]
  {
    hide Managed, ParentChanged;
  }

  lemma ParentExact(plan: Plan, snap: Snapshot, item: Item, op: Operation)
    ensures op in ParentOps(plan, snap, item) <==>
      op.action.SetParent? && Labelled(plan, snap, op) && ForItem(plan, snap, item, op)
  {
    hide Labelled, Demands, Guarded, Describes, Managed, ParentOps, ParentChanged, ParentSight, Untouched, Needed, DesiredParent;
    GuardedExact(plan, snap, op);
    ParentMade(plan, snap, item);
    forall sight: Sight
      ensures Describes(plan, item, sight.hash) && Untouched(plan, snap, item, sight) <==> sight == ParentSight(plan, snap, item)
    {
      ParentSightExact(plan, snap, item, sight);
    }
    GuardedLabel(plan, snap, SetParent(DesiredParent(plan, item)), IdOf(plan, item), ParentSight(plan, snap, item));
    if op.action.SetParent? {
      ParentNeeded(plan, snap, item, op.action.parent);
    }
  }

  // ----- relations -----

  /** What a node shows while its relations are revised. */
  function RelationSight(plan: Plan, snap: Snapshot, item: Item, relations: set<Relation>): Sight {
    Sight(Managed(plan, item), DesiredParent(plan, item), UnmanagedFlag(Lookup(snap, IdOf(plan, item))), relations)
  }

  lemma SettlingExact(plan: Plan, snap: Snapshot, item: Item, sight: Sight)
    ensures Settling(plan, snap, item, sight) <==> sight == RelationSight(plan, snap, item, sight.relations)
  {
    hide Describes, Managed;
    ManagedExact(plan, item, sight.hash);
  }

  lemma RelationMade(plan: Plan, snap: Snapshot, item: Item, action: Action, virtual: set<Relation>)
    requires !action.UpdateManagedFields?
    ensures RelationOp(plan, snap, item, action, virtual)
         == Guarded(plan, snap, action, IdOf(plan, item), RelationSight(plan, snap, item, virtual))
  {
    hide Managed;
  }

  lemma {:induction false} AddOpsExact(plan: Plan, snap: Snapshot, item: Item, added: seq<Relation>, virtual: set<Relation>,
                                       op: Operation)
    ensures op in AddOps(plan, snap, item, added, virtual) <==>
      exists k: nat :: k < |added| && op == RelationOp(plan, snap, item, CreateRelation(added[k]), virtual + Members(added[..k]))
    decreases |added|
  {
    hide RelationOp;
    if added != [] {
      var n := |added| - 1;
      AddOpsExact(plan, snap, item, added[..n], virtual, op);
      assert forall k: nat | k < n :: added[..n][k] == added[k] && added[..n][..k] == added[..k];
    }
  }

  lemma {:induction false} RemoveOpsExact(plan: Plan, snap: Snapshot, item: Item, removed: seq<Relation>,
                                          virtual: set<Relation>, op: Operation)
    ensures op in RemoveOps(plan, snap, item, removed, virtual) <==>
      exists k: nat :: k < |removed|
        && op == RelationOp(plan, snap, item, RemoveManagedRelation(removed[k]), virtual - Members(removed[..k]))
    decreases |removed|
  {
    hide RelationOp;
    if removed != [] {
      var n := |removed| - 1;
      RemoveOpsExact(plan, snap, item, removed[..n], virtual, op);
      assert forall k: nat | k < n :: removed[..n][k] == removed[k] && removed[..n][..k] == removed[..k];
    }
  }

  /** In a sorted listing the members ahead of one of them are those that come before it. */
  lemma AheadExact(relations: seq<Relation>, members: set<Relation>, k: nat)
    requires Lists(relations, members) && Ascending(relations, RelationLe) && k < |relations|
    ensures forall other :: other in Members(relations[..k]) <==> other in members && Before(other, relations[k])
  {
    hide RelationLe, Before;
    RelationOrder();
    forall i | 0 <= i < k ensures relations[i] in members && Before(relations[i], relations[k]) {
      BeforeExact(relations[i], relations[k]);
      assert relations[i] in relations;
    }
    forall other | other in members && Before(other, relations[k]) ensures other in relations[..k] {
      BeforeExact(other, relations[k]);
      var j :| 0 <= j < |relations| && relations[j] == other;
      assert j < k;
      assert relations[..k][j] == other;
    }
  }

  lemma HeldExact(plan: Plan, snap: Snapshot, item: Item)
    ensures forall relation ::
      relation in CurrentRelations(Lookup(snap, IdOf(plan, item))) <==> Held(plan, snap, item, relation)
  {
  }

  lemma WantedExact(plan: Plan, item: Item)
    ensures forall relation :: relation in DesiredRelations(plan, item) <==> Wanted(plan, item, relation)
  {
    hide DesiredRelations, Wanted;
    forall relation ensures relation in DesiredRelations(plan, item) <==> Wanted(plan, item, relation) {
      DesiredExact(plan, item, relation);
    }
  }

  /** Position of a member of a listing. */
  lemma Position(relations: seq<Relation>, members: set<Relation>, relation: Relation) returns (k: nat)
    requires Lists(relations, members) && relation in members
    ensures k < |relations| && relations[k] == relation
  {
    k :| k < |relations| && relations[k] == relation;
  }

  lemma AddedExact(plan: Plan, snap: Snapshot, item: Item, op: Operation)
    ensures var current := CurrentRelations(Lookup(snap, IdOf(plan, item)));
            op in AddOps(plan, snap, item, Missing(plan, snap, item), current) <==>
              op.action.CreateRelation? && Labelled(plan, snap, op) && ForItem(plan, snap, item, op)
  {
    var current, missing := CurrentRelations(Lookup(snap, IdOf(plan, item))), Missing(plan, snap, item);
    if op in AddOps(plan, snap, item, missing, current) {
      AddedIsCalledFor(plan, snap, item, op);
    }
    if op.action.CreateRelation? && Labelled(plan, snap, op) && ForItem(plan, snap, item, op) {
      CalledForIsAdded(plan, snap, item, op);
    }
  }

  lemma AddedIsCalledFor(plan: Plan, snap: Snapshot, item: Item, op: Operation)
    requires op in AddOps(plan, snap, item, Missing(plan, snap, item), CurrentRelations(Lookup(snap, IdOf(plan, item))))
    ensures op.action.CreateRelation? && Labelled(plan, snap, op) && ForItem(plan, snap, item, op)
  {
    hide AddOps, DesiredRelations, Lookup, Held, Wanted, Settling, RelationSight, Labelled, Demands, Guarded, RelationLe, Before;
    var current, missing := CurrentRelations(Lookup(snap, IdOf(plan, item))), Missing(plan, snap, item);
    AddOpsExact(plan, snap, item, missing, current, op);
    var k: nat :| k < |missing|
      && op == RelationOp(plan, snap, item, CreateRelation(missing[k]), current + Members(missing[..k]));
    var relation, relations := missing[k], current + Members(missing[..k]);
    var sight := RelationSight(plan, snap, item, relations);
    RelationMade(plan, snap, item, CreateRelation(relation), relations);
    GuardedExact(plan, snap, op);
    SightRelations(plan, snap, item, relations);
    SettlingExact(plan, snap, item, sight);
    AheadExact(missing, DesiredRelations(plan, item) - current, k);
    HeldExact(plan, snap, item);
    WantedExact(plan, item);
    GuardedLabel(plan, snap, CreateRelation(relation), IdOf(plan, item), sight);
    assert relation in missing;
    assert Foreseen(plan, snap, item, op.action, sight);
  }

  lemma SightRelations(plan: Plan, snap: Snapshot, item: Item, relations: set<Relation>)
    ensures RelationSight(plan, snap, item, relations).relations == relations
  {
  }

  lemma CalledForIsAdded(plan: Plan, snap: Snapshot, item: Item, op: Operation)
    requires op.action.CreateRelation? && Labelled(plan, snap, op) && ForItem(plan, snap, item, op)
    ensures op in AddOps(plan, snap, item, Missing(plan, snap, item), CurrentRelations(Lookup(snap, IdOf(plan, item))))
  {
    hide AddOps, DesiredRelations, Lookup, Held, Wanted, Settling, RelationSight, Labelled, Demands, Guarded, RelationLe, Before;
    var current, missing := CurrentRelations(Lookup(snap, IdOf(plan, item))), Missing(plan, snap, item);
    var relation := op.action.relation;
    var sight :| Foreseen(plan, snap, item, op.action, sight) && Demands(op, sight);
    HeldExact(plan, snap, item);
    WantedExact(plan, item);
    var k := Position(missing, DesiredRelations(plan, item) - current, relation);
    AheadExact(missing, DesiredRelations(plan, item) - current, k);
    var relations := current + Members(missing[..k]);
    assert sight.relations == relations;
    SettlingExact(plan, snap, item, sight);
    GuardedExact(plan, snap, op);
    RelationMade(plan, snap, item, CreateRelation(relation), relations);
    AddOpsExact(plan, snap, item, missing, current, op);
  }

  lemma RemovedExact(plan: Plan, snap: Snapshot, item: Item, op: Operation)
    ensures var current := CurrentRelations(Lookup(snap, IdOf(plan, item)));
            op in RemoveOps(plan, snap, item, Surplus(plan, snap, item), current + Members(Missing(plan, snap, item))) <==>
              op.action.RemoveManagedRelation? && Labelled(plan, snap, op) && ForItem(plan, snap, item, op)
  {
    var current, missing := CurrentRelations(Lookup(snap, IdOf(plan, item))), Missing(plan, snap, item);
    if op in RemoveOps(plan, snap, item, Surplus(plan, snap, item), current + Members(missing)) {
      RemovedIsCalledFor(plan, snap, item, op);
    }
    if op.action.RemoveManagedRelation? && Labelled(plan, snap, op) && ForItem(plan, snap, item, op) {
      CalledForIsRemoved(plan, snap, item, op);
    }
  }

  lemma RemovedIsCalledFor(plan: Plan, snap: Snapshot, item: Item, op: Operation)
    requires op in RemoveOps(plan, snap, item, Surplus(plan, snap, item),
                             CurrentRelations(Lookup(snap, IdOf(plan, item))) + Members(Missing(plan, snap, item)))
    ensures op.action.RemoveManagedRelation? && Labelled(plan, snap, op) && ForItem(plan, snap, item, op)
  {
    hide RemoveOps, DesiredRelations, Lookup, Held, Wanted, Settling, RelationSight, Labelled, Demands, Guarded, RelationLe, Before;
    var current, surplus := CurrentRelations(Lookup(snap, IdOf(plan, item))), Surplus(plan, snap, item);
    var full := current + Members(Missing(plan, snap, item));
    RemoveOpsExact(plan, snap, item, surplus, full, op);
    var k: nat :| k < |surplus|
      && op == RelationOp(plan, snap, item, RemoveManagedRelation(surplus[k]), full - Members(surplus[..k]));
    var relation, relations := surplus[k], full - Members(surplus[..k]);
    var sight := RelationSight(plan, snap, item, relations);
    RelationMade(plan, snap, item, RemoveManagedRelation(relation), relations);
    GuardedExact(plan, snap, op);
    SightRelations(plan, snap, item, relations);
    SettlingExact(plan, snap, item, sight);
    AheadExact(surplus, current - DesiredRelations(plan, item), k);
    HeldExact(plan, snap, item);
    WantedExact(plan, item);
    GuardedLabel(plan, snap, RemoveManagedRelation(relation), IdOf(plan, item), sight);
    assert relation in surplus;
    assert Foreseen(plan, snap, item, op.action, sight);
  }

  lemma CalledForIsRemoved(plan: Plan, snap: Snapshot, item: Item, op: Operation)
    requires op.action.RemoveManagedRelation? && Labelled(plan, snap, op) && ForItem(plan, snap, item, op)
    ensures op in RemoveOps(plan, snap, item, Surplus(plan, snap, item),
                            CurrentRelations(Lookup(snap, IdOf(plan, item))) + Members(Missing(plan, snap, item)))
  {
    hide RemoveOps, DesiredRelations, Lookup, Held, Wanted, Settling, RelationSight, Labelled, Demands, Guarded, RelationLe, Before;
    var current, surplus := CurrentRelations(Lookup(snap, IdOf(plan, item))), Surplus(plan, snap, item);
    var full := current + Members(Missing(plan, snap, item));
    var relation := op.action.relation;
    var sight :| Foreseen(plan, snap, item, op.action, sight) && Demands(op, sight);
    HeldExact(plan, snap, item);
    WantedExact(plan, item);
    var k := Position(surplus, current - DesiredRelations(plan, item), relation);
    AheadExact(surplus, current - DesiredRelations(plan, item), k);
    var relations := full - Members(surplus[..k]);
    assert sight.relations == relations;
    SettlingExact(plan, snap, item, sight);
    GuardedExact(plan, snap, op);
    RelationMade(plan, snap, item, RemoveManagedRelation(relation), relations);
    RemoveOpsExact(plan, snap, item, surplus, full, op);
  }

  /** The actions of the node pass. */
  predicate Revises(action: Action) {
    !action.CreateWorkPackage? && !action.MarkSuperseded? && !action.RecordAudit?
  }

  lemma NodeExact(plan: Plan, snap: Snapshot, item: Item, op: Operation)
    ensures op in NodeOps(plan, snap, item) <==>
      Revises(op.action) && Labelled(plan, snap, op) && ForItem(plan, snap, item, op)
  {
    hide StatusOps, ContentOps, ParentOps, AddOps, RemoveOps, Labelled, ForItem, Missing, Surplus, Lookup;
    StatusExact(plan, snap, item, op);
    ContentExact(plan, snap, item, op);
    ParentExact(plan, snap, item, op);
    AddedExact(plan, snap, item, op);
    RemovedExact(plan, snap, item, op);
  }

  // ----- the whole list -----

  lemma CreationExact(plan: Plan, snap: Snapshot, item: Item, op: Operation)
    ensures IdOf(plan, item) !in snap.packages && op == CreateOp(plan, snap, item) <==>
      op.action.CreateWorkPackage? && Labelled(plan, snap, op) && ForItem(plan, snap, item, op)
  {
    hide Managed, Describes;
    if op.action.CreateWorkPackage? {
      ManagedExact(plan, item, op.action.fields);
    }
  }

  lemma {:induction false} CreationsExact(plan: Plan, snap: Snapshot, items: seq<Item>, op: Operation)
    ensures op in CreateOps(plan, snap, items) <==>
      exists item :: item in items && IdOf(plan, item) !in snap.packages && op == CreateOp(plan, snap, item)
    decreases |items|
  {
    hide CreateOp;
    if items != [] {
      var front, last := items[..|items| - 1], items[|items| - 1];
      CreationsExact(plan, snap, front, op);
      assert items == front + [last];
    }
  }

  lemma FormerExact(plan: Plan, snap: Snapshot, id: Identity)
    ensures Removed(plan, snap, id) <==> Former(plan, snap, id)
  {
  }

  lemma SupersessionExact(plan: Plan, snap: Snapshot, op: Operation)
    ensures Removed(plan, snap, op.identity) && op == SupersedeOp(plan, snap, op.identity) <==>
      Labelled(plan, snap, op) && ForFormer(plan, snap, op)
  {
    hide Labelled, Demands, Shows, Guarded, Former, Removed;
    FormerExact(plan, snap, op.identity);
    if Former(plan, snap, op.identity) {
      FormerListed(plan, snap, op.identity);
      GuardedExact(plan, snap, op);
      ListedSightExact(snap.packages[op.identity]);
      SupersessionMade(plan, snap, op.identity);
      GuardedLabel(plan, snap, MarkSuperseded, op.identity, ListedSight(snap.packages[op.identity]));
    }
  }

  lemma FormerListed(plan: Plan, snap: Snapshot, id: Identity)
    requires Former(plan, snap, id)
    ensures id in snap.packages
  {
  }

  lemma SupersessionMade(plan: Plan, snap: Snapshot, id: Identity)
    requires id in snap.packages
    ensures SupersedeOp(plan, snap, id) == Guarded(plan, snap, MarkSuperseded, id, ListedSight(snap.packages[id]))
  {
  }

  lemma {:induction false} SupersessionsExact(plan: Plan, snap: Snapshot, identities: seq<Identity>, op: Operation)
    ensures op in SupersedeOps(plan, snap, identities) <==>
      op.identity in identities && Removed(plan, snap, op.identity) && op == SupersedeOp(plan, snap, op.identity)
    decreases |identities|
  {
    if identities != [] {
      var front, last := identities[..|identities| - 1], identities[|identities| - 1];
      SupersessionsExact(plan, snap, front, op);
      assert identities == front + [last];
    }
  }

  lemma SortedMembers(items: seq<Item>)
    ensures forall item :: item in SortItems(items) <==> item in items
  {
    forall item ensures item in SortItems(items) <==> item in items {
      assert multiset(SortItems(items))[item] == multiset(items)[item];
    }
  }

  /** The mutations of a diff are exactly the operations the plan calls for. */
  lemma MutationsExact(plan: Plan, snap: Snapshot, op: Operation)
    ensures op in Mutations(plan, snap) <==> CalledFor(plan, snap, op)
  {
    hide CreateOps, CreateOp, NodesOps, NodeOps, SupersedeOps, SupersedeOp, SortItems, SortedIdentities, Labelled, ForItem, ForFormer, Removed;
    var items, identities := SortItems(plan.items), SortedIdentities(snap.packages.Keys);
    SortedMembers(plan.items);
    CreationsExact(plan, snap, items, op);
    NodesOpsMembers(plan, snap, items, op);
    SupersessionsExact(plan, snap, identities, op);
    SupersessionExact(plan, snap, op);
    forall item
      ensures IdOf(plan, item) !in snap.packages && op == CreateOp(plan, snap, item) <==>
                op.action.CreateWorkPackage? && Labelled(plan, snap, op) && ForItem(plan, snap, item, op)
    {
      CreationExact(plan, snap, item, op);
    }
    forall item
      ensures op in NodeOps(plan, snap, item) <==>
                Revises(op.action) && Labelled(plan, snap, op) && ForItem(plan, snap, item, op)
    {
      NodeExact(plan, snap, item, op);
    }
    SplitByAction(plan, snap, op);
  }

  lemma SplitByAction(plan: Plan, snap: Snapshot, op: Operation)
    ensures ForFormer(plan, snap, op) ==> op.action.MarkSuperseded? && op.identity in snap.packages
    ensures Removed(plan, snap, op.identity) ==> op.identity in snap.packages
    ensures forall item :: ForItem(plan, snap, item, op) ==> op.action.CreateWorkPackage? || Revises(op.action)
  {
  }

  /**
    The diff by its contents: apart from the audit record it holds an operation if and only if
    the plan calls for it, with that payload and with those preconditions.
   */
  lemma DiffExact(plan: Plan, snap: Snapshot, op: Operation)
    requires !op.action.RecordAudit?
    ensures op in Diff(plan, snap) <==> CalledFor(plan, snap, op)
  {
    hide Mutations, CalledFor;
    MutationsExact(plan, snap, op);
  }

  /**
    The audit record ends every diff that is not empty. It lists the identifiers of all other
    operations in their order and demands nothing of any work package.
   */
  lemma AuditExact(plan: Plan, snap: Snapshot)
    ensures var ops := Diff(plan, snap);
            (ops == [] <==> forall op :: !CalledFor(plan, snap, op))
    ensures var ops := Diff(plan, snap);
            forall i :: 0 <= i < |ops| ==> (ops[i].action.RecordAudit? <==> i == |ops| - 1)
    ensures var ops := Diff(plan, snap);
            ops != [] ==>
              var audit := ops[|ops| - 1];
              && audit.action.RecordAudit? && audit.identity == Identity(plan.id, "_audit")
              && |audit.action.operations| == |ops| - 1
              && (forall i :: 0 <= i < |ops| - 1 ==> audit.action.operations[i] == ops[i].id)
              && Labelled(plan, snap, audit) && audit.before == None && audit.after == None
              && !audit.preconditions.identityAbsent && !audit.preconditions.identityResolved
              && audit.preconditions.expectedHash == None && audit.preconditions.topology == None
  {
    hide Mutations, CalledFor;
    var ops := Mutations(plan, snap);
    forall op ensures op in ops <==> CalledFor(plan, snap, op) {
      MutationsExact(plan, snap, op);
    }
    if ops != [] {
      assert ops[0] in ops;
    }
    forall i | 0 <= i < |ops| ensures !ops[i].action.RecordAudit? {
      assert ops[i] in ops;
      CalledForMutation(plan, snap, ops[i]);
    }
  }

  lemma CalledForMutation(plan: Plan, snap: Snapshot, op: Operation)
    requires CalledFor(plan, snap, op)
    ensures !op.action.RecordAudit?
  {
  }
}
