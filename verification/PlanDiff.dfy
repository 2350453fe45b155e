/** Translation of a plan and a snapshot into the ordered list of guarded operations. */
module PlanDiff {
  import opened Basics
  import opened Ordering
  import opened Backlog
  import opened Operations

  /** The store at the time of the snapshot; `Lookup` gives what the snapshot shows of it. */
  datatype Snapshot = Snapshot(digest: string, packages: map<Identity, Package>)

  /** A listing resolves parents within itself: a parent outside it shows no identity. */
  function AsListed(package: Package): Package {
    if package.parent.ForeignParent? then package.(parent := UnmanagedParent) else package
  }

  function IdOf(plan: Plan, item: Item): Identity {
    Identity(plan.id, item.key)
  }

  function Make(plan: Plan, action: Action, identity: Identity, before: Option<Hash>, after: Option<Hash>,
                pre: Preconditions): Operation
  {
    Operation(OperationId(plan.id, plan.version, action, identity, pre), action, identity, pre, before, after)
  }

  function Base(plan: Plan, snap: Snapshot, expected: Option<Hash>): Preconditions {
    Preconditions(plan.id, plan.version, snap.digest, expected, false, false, None)
  }

  function Observed(package: Package): Topology {
    Topology(ParentIdentity(package), package.parent.UnmanagedParent?, package.relations)
  }

  /** Preconditions of an operation on a work package that exists already. */
  function Existing(plan: Plan, snap: Snapshot, package: Package, expected: Hash): Preconditions {
    Base(plan, snap, Some(expected)).(identityResolved := true, topology := Some(Observed(package)))
  }

  function UnmanagedFlag(package: Option<Package>): bool {
    package.Some? && package.value.parent.UnmanagedParent?
  }

  /** Preconditions with a predicted topology; the unmanaged flag always comes from the snapshot. */
  function Predicted(plan: Plan, snap: Snapshot, package: Option<Package>, expected: Hash,
                     parent: Option<Identity>, relations: set<Relation>): Preconditions
  {
    Base(plan, snap, Some(expected)).(
      identityResolved := true,
      topology := Some(Topology(parent, UnmanagedFlag(package), relations)))
  }

  function Lookup(snap: Snapshot, identity: Identity): Option<Package> {
    if identity in snap.packages then Some(AsListed(snap.packages[identity])) else None
  }

  function DesiredParent(plan: Plan, item: Item): Option<Identity> {
    if item.parent.None? then None else Some(Identity(plan.id, item.parent.value))
  }

  function CurrentParent(package: Option<Package>): Option<Identity> {
    if package.None? then None else ParentIdentity(package.value)
  }

  function CurrentRelations(package: Option<Package>): set<Relation> {
    if package.None? then {} else package.value.relations
  }

  predicate ParentChanged(plan: Plan, item: Item, package: Option<Package>) {
    || CurrentParent(package) != DesiredParent(plan, item)
    || (item.parent.None? && package.Some? && !package.value.parent.NoParent?)
  }

  function CreateOp(plan: Plan, snap: Snapshot, item: Item): Operation {
    var fields := Managed(plan, item);
    Make(plan, CreateWorkPackage(fields, Pending), IdOf(plan, item), None, Some(fields),
         Base(plan, snap, None).(identityAbsent := true))
  }

  function CreateOps(plan: Plan, snap: Snapshot, items: seq<Item>): seq<Operation> {
    if items == [] then [] else
      var item := items[|items| - 1];
      CreateOps(plan, snap, items[..|items| - 1])
      + if IdOf(plan, item) in snap.packages then [] else [CreateOp(plan, snap, item)]
  }

  function StatusOps(plan: Plan, snap: Snapshot, item: Item): seq<Operation> {
    var package := Lookup(snap, IdOf(plan, item));
    if package.None? || !package.value.status.Superseded? then [] else
      var hash := package.value.hash;
      [Make(plan, ReactivateWorkPackage, IdOf(plan, item), Some(hash), Some(hash),
            Existing(plan, snap, package.value, hash))]
  }

  function ContentOps(plan: Plan, snap: Snapshot, item: Item): seq<Operation> {
    var package := Lookup(snap, IdOf(plan, item));
    var fields := Managed(plan, item);
    if package.None? || package.value.hash == fields then [] else
      [Make(plan, UpdateManagedFields(fields), IdOf(plan, item), Some(package.value.hash), Some(fields),
            Existing(plan, snap, package.value, package.value.hash))]
  }

  function ParentOps(plan: Plan, snap: Snapshot, item: Item): seq<Operation> {
    var package := Lookup(snap, IdOf(plan, item));
    var fields := Managed(plan, item);
    if !ParentChanged(plan, item, package) then [] else
      [Make(plan, SetParent(DesiredParent(plan, item)), IdOf(plan, item), Some(fields), Some(fields),
            Predicted(plan, snap, package, fields, CurrentParent(package), CurrentRelations(package)))]
  }

  /** A relation operation issued while the item is predicted to hold `virtual`. */
  function RelationOp(plan: Plan, snap: Snapshot, item: Item, action: Action, virtual: set<Relation>): Operation {
    var fields := Managed(plan, item);
    Make(plan, action, IdOf(plan, item), Some(fields), Some(fields),
         Predicted(plan, snap, Lookup(snap, IdOf(plan, item)), fields, DesiredParent(plan, item), virtual))
  }

  function AddOps(plan: Plan, snap: Snapshot, item: Item, added: seq<Relation>, virtual: set<Relation>): seq<Operation> {
    if added == [] then [] else
      var earlier := added[..|added| - 1];
      AddOps(plan, snap, item, earlier, virtual)
      + [RelationOp(plan, snap, item, CreateRelation(added[|added| - 1]), virtual + Members(earlier))]
  }

  function RemoveOps(plan: Plan, snap: Snapshot, item: Item, removed: seq<Relation>, virtual: set<Relation>): seq<Operation> {
    if removed == [] then [] else
      var earlier := removed[..|removed| - 1];
      RemoveOps(plan, snap, item, earlier, virtual)
      + [RelationOp(plan, snap, item, RemoveManagedRelation(removed[|removed| - 1]), virtual - Members(earlier))]
  }

  ghost function SortedRelations(relations: set<Relation>): (r: seq<Relation>)
    ensures Lists(r, relations) && Ascending(r, RelationLe)
  {
    RelationOrder();
    Sorted(relations, RelationLe)
  }

  ghost function SortedIdentities(identities: set<Identity>): (r: seq<Identity>)
    ensures Lists(r, identities) && Ascending(r, IdentityLe)
  {
    IdentityOrder();
    Sorted(identities, IdentityLe)
  }

  ghost function Missing(plan: Plan, snap: Snapshot, item: Item): seq<Relation> {
    SortedRelations(DesiredRelations(plan, item) - CurrentRelations(Lookup(snap, IdOf(plan, item))))
  }

  ghost function Surplus(plan: Plan, snap: Snapshot, item: Item): seq<Relation> {
    SortedRelations(CurrentRelations(Lookup(snap, IdOf(plan, item))) - DesiredRelations(plan, item))
  }

  function FieldOps(plan: Plan, snap: Snapshot, item: Item): seq<Operation> {
    StatusOps(plan, snap, item) + ContentOps(plan, snap, item) + ParentOps(plan, snap, item)
  }

  ghost function RelationOps(plan: Plan, snap: Snapshot, item: Item): seq<Operation> {
    var current, missing := CurrentRelations(Lookup(snap, IdOf(plan, item))), Missing(plan, snap, item);
    AddOps(plan, snap, item, missing, current)
    + RemoveOps(plan, snap, item, Surplus(plan, snap, item), current + Members(missing))
  }

  ghost function NodeOps(plan: Plan, snap: Snapshot, item: Item): seq<Operation> {
    FieldOps(plan, snap, item) + RelationOps(plan, snap, item)
  }

  ghost function NodesOps(plan: Plan, snap: Snapshot, items: seq<Item>): seq<Operation> {
    if items == [] then [] else
      NodesOps(plan, snap, items[..|items| - 1]) + NodeOps(plan, snap, items[|items| - 1])
  }

  predicate Removed(plan: Plan, snap: Snapshot, identity: Identity) {
    && identity in snap.packages
    && identity.plan == plan.id && identity.key !in Keys(plan.items)
    && !snap.packages[identity].status.Superseded?
  }

  function SupersedeOp(plan: Plan, snap: Snapshot, identity: Identity): Operation
    requires identity in snap.packages
  {
    var package := AsListed(snap.packages[identity]);
    Make(plan, MarkSuperseded, identity, Some(package.hash), Some(package.hash),
         Existing(plan, snap, package, package.hash))
  }

  function SupersedeOps(plan: Plan, snap: Snapshot, identities: seq<Identity>): seq<Operation> {
    if identities == [] then [] else
      var identity := identities[|identities| - 1];
      SupersedeOps(plan, snap, identities[..|identities| - 1])
      + if Removed(plan, snap, identity) then [SupersedeOp(plan, snap, identity)] else []
  }

  function Ids(ops: seq<Operation>): (r: seq<OperationId>)
    ensures |r| == |ops| && forall i :: 0 <= i < |ops| ==> r[i] == ops[i].id
  {
    seq(|ops|, i requires 0 <= i < |ops| => ops[i].id)
  }

  function AuditOp(plan: Plan, snap: Snapshot, ops: seq<Operation>): Operation {
    Make(plan, RecordAudit(Ids(ops)), Identity(plan.id, "_audit"), None, None, Base(plan, snap, None))
  }

  /** Every operation of the diff before its audit record. */
  ghost function Mutations(plan: Plan, snap: Snapshot): seq<Operation> {
    var items := SortItems(plan.items);
    CreateOps(plan, snap, items) + NodesOps(plan, snap, items)
    + SupersedeOps(plan, snap, SortedIdentities(snap.packages.Keys))
  }

  ghost function Diff(plan: Plan, snap: Snapshot): seq<Operation> {
    var ops := Mutations(plan, snap);
    if ops == [] then [] else ops + [AuditOp(plan, snap, ops)]
  }

  lemma AddOpsStep(plan: Plan, snap: Snapshot, item: Item, added: seq<Relation>, virtual: set<Relation>, k: nat)
    requires k < |added|
    ensures AddOps(plan, snap, item, added[..k + 1], virtual)
         == AddOps(plan, snap, item, added[..k], virtual)
            + [RelationOp(plan, snap, item, CreateRelation(added[k]), virtual + Members(added[..k]))]
    ensures Members(added[..k + 1]) == Members(added[..k]) + {added[k]}
  {
    assert added[..k + 1][..k] == added[..k];
    assert added[..k + 1] == added[..k] + [added[k]];
  }

  lemma RemoveOpsStep(plan: Plan, snap: Snapshot, item: Item, removed: seq<Relation>, virtual: set<Relation>, k: nat)
    requires k < |removed|
    ensures RemoveOps(plan, snap, item, removed[..k + 1], virtual)
         == RemoveOps(plan, snap, item, removed[..k], virtual)
            + [RelationOp(plan, snap, item, RemoveManagedRelation(removed[k]), virtual - Members(removed[..k]))]
    ensures Members(removed[..k + 1]) == Members(removed[..k]) + {removed[k]}
  {
    assert removed[..k + 1][..k] == removed[..k];
    assert removed[..k + 1] == removed[..k] + [removed[k]];
  }

  method AddRelations(plan: Plan, snap: Snapshot, item: Item, virtualParent: Option<Identity>,
                      missing: seq<Relation>, initial: set<Relation>)
    returns (ops: seq<Operation>, virtual: set<Relation>)
    requires virtualParent == DesiredParent(plan, item)
    ensures ops == AddOps(plan, snap, item, missing, initial)
    ensures virtual == initial + Members(missing)
  {
    var after := Managed(plan, item);
    ops, virtual := [], initial;
    for k := 0 to |missing|
      invariant virtual == initial + Members(missing[..k])
      invariant ops == AddOps(plan, snap, item, missing[..k], initial)
    {
      AddOpsStep(plan, snap, item, missing, initial, k);
      ops := ops + [Make(plan, CreateRelation(missing[k]), IdOf(plan, item), Some(after), Some(after),
                         Predicted(plan, snap, Lookup(snap, IdOf(plan, item)), after, virtualParent, virtual))];
      virtual := virtual + {missing[k]};
    }
    assert missing[..|missing|] == missing;
  }

  method RemoveRelations(plan: Plan, snap: Snapshot, item: Item, virtualParent: Option<Identity>,
                         surplus: seq<Relation>, initial: set<Relation>)
    returns (ops: seq<Operation>)
    requires virtualParent == DesiredParent(plan, item)
    ensures ops == RemoveOps(plan, snap, item, surplus, initial)
  {
    var after := Managed(plan, item);
    ops := [];
    var virtual := initial;
    for k := 0 to |surplus|
      invariant virtual == initial - Members(surplus[..k])
      invariant ops == RemoveOps(plan, snap, item, surplus[..k], initial)
    {
      RemoveOpsStep(plan, snap, item, surplus, initial, k);
      ops := ops + [Make(plan, RemoveManagedRelation(surplus[k]), IdOf(plan, item), Some(after), Some(after),
                         Predicted(plan, snap, Lookup(snap, IdOf(plan, item)), after, virtualParent, virtual))];
      virtual := virtual - {surplus[k]};
    }
    assert surplus[..|surplus|] == surplus;
  }

  method NodeDiff(plan: Plan, snap: Snapshot, item: Item) returns (ops: seq<Operation>)
    ensures ops == NodeOps(plan, snap, item)
  {
    var package := Lookup(snap, IdOf(plan, item));
    var after := Managed(plan, item);
    ops := StatusOps(plan, snap, item) + ContentOps(plan, snap, item);
    var virtualParent := CurrentParent(package);
    if ParentChanged(plan, item, package) {
      ops := ops + [Make(plan, SetParent(DesiredParent(plan, item)), IdOf(plan, item), Some(after), Some(after),
                         Predicted(plan, snap, package, after, CurrentParent(package), CurrentRelations(package)))];
      virtualParent := DesiredParent(plan, item);
    }
    RelationOrder();
    var desired, current := DesiredRelations(plan, item), CurrentRelations(package);
    var missing := SortSet(desired - current, RelationLe);
    var added, virtual := AddRelations(plan, snap, item, virtualParent, missing, current);
    var surplus := SortSet(current - desired, RelationLe);
    var removed := RemoveRelations(plan, snap, item, virtualParent, surplus, virtual);
    ops := ops + (added + removed);
  }

  lemma CreateOpsStep(plan: Plan, snap: Snapshot, items: seq<Item>, i: nat)
    requires i < |items|
    ensures CreateOps(plan, snap, items[..i + 1])
         == CreateOps(plan, snap, items[..i])
            + if IdOf(plan, items[i]) in snap.packages then [] else [CreateOp(plan, snap, items[i])]
  {
    assert items[..i + 1][..i] == items[..i];
  }

  lemma NodesOpsStep(plan: Plan, snap: Snapshot, items: seq<Item>, i: nat)
    requires i < |items|
    ensures NodesOps(plan, snap, items[..i + 1]) == NodesOps(plan, snap, items[..i]) + NodeOps(plan, snap, items[i])
  {
    assert items[..i + 1][..i] == items[..i];
  }

  lemma SupersedeOpsStep(plan: Plan, snap: Snapshot, identities: seq<Identity>, i: nat)
    requires i < |identities|
    ensures SupersedeOps(plan, snap, identities[..i + 1])
         == SupersedeOps(plan, snap, identities[..i])
            + if Removed(plan, snap, identities[i]) then [SupersedeOp(plan, snap, identities[i])] else []
  {
    assert identities[..i + 1][..i] == identities[..i];
  }

  /** First pass: every node exists before hierarchy or relations refer to it. */
  method CreateMissing(plan: Plan, snap: Snapshot, items: seq<Item>) returns (ops: seq<Operation>)
    ensures ops == CreateOps(plan, snap, items)
  {
    ops := [];
    for i := 0 to |items|
      invariant ops == CreateOps(plan, snap, items[..i])
    {
      CreateOpsStep(plan, snap, items, i);
      if IdOf(plan, items[i]) !in snap.packages {
        ops := ops + [CreateOp(plan, snap, items[i])];
      }
    }
    assert items[..|items|] == items;
  }

  method ReviseNodes(plan: Plan, snap: Snapshot, items: seq<Item>) returns (ops: seq<Operation>)
    ensures ops == NodesOps(plan, snap, items)
  {
    ops := [];
    for i := 0 to |items|
      invariant ops == NodesOps(plan, snap, items[..i])
    {
      NodesOpsStep(plan, snap, items, i);
      var node := NodeDiff(plan, snap, items[i]);
      ops := ops + node;
    }
    assert items[..|items|] == items;
  }

  method SupersedeRemoved(plan: Plan, snap: Snapshot) returns (ops: seq<Operation>)
    ensures ops == SupersedeOps(plan, snap, SortedIdentities(snap.packages.Keys))
  {
    IdentityOrder();
    var identities := SortSet(snap.packages.Keys, IdentityLe);
    ops := [];
    for i := 0 to |identities|
      invariant ops == SupersedeOps(plan, snap, identities[..i])
    {
      SupersedeOpsStep(plan, snap, identities, i);
      if Removed(plan, snap, identities[i]) {
        ops := ops + [SupersedeOp(plan, snap, identities[i])];
      }
    }
    assert identities[..|identities|] == identities;
  }

  /** `plan_diff`. */
  method PlanDiff(plan: Plan, snap: Snapshot) returns (ops: seq<Operation>)
    ensures ops == Diff(plan, snap)
  {
    var items := SortItems(plan.items);
    var creates := CreateMissing(plan, snap, items);
    var revisions := ReviseNodes(plan, snap, items);
    var removals := SupersedeRemoved(plan, snap);
    ops := creates + revisions + removals;
    if ops != [] {
      ops := ops + [AuditOp(plan, snap, ops)];
    }
  }
}
