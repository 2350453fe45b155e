/** The main results about `plan_diff`. */
module DiffTheorems {
  import opened Basics
  import opened Ordering
  import opened Backlog
  import opened Operations
  import opened PlanDiff
  import opened DiffSoundness

  // ----- members of each segment -----

  /** The identifier of an operation digests its own content. */
  predicate Named(op: Operation) {
    op.id.identity == op.identity && op.id.action == op.action
  }

  lemma {:induction false} AddOpsMembers(plan: Plan, snap: Snapshot, item: Item, added: seq<Relation>, virtual: set<Relation>)
    ensures forall op :: op in AddOps(plan, snap, item, added, virtual) ==>
      Named(op) && op.identity == IdOf(plan, item) && op.action.CreateRelation? && op.action.relation in added
    decreases |added|
  {
    if added != [] {
      AddOpsMembers(plan, snap, item, added[..|added| - 1], virtual);
    }
  }

  lemma {:induction false} RemoveOpsMembers(plan: Plan, snap: Snapshot, item: Item, removed: seq<Relation>, virtual: set<Relation>)
    ensures forall op :: op in RemoveOps(plan, snap, item, removed, virtual) ==>
      Named(op) && op.identity == IdOf(plan, item) && op.action.RemoveManagedRelation? && op.action.relation in removed
    decreases |removed|
  {
    if removed != [] {
      RemoveOpsMembers(plan, snap, item, removed[..|removed| - 1], virtual);
    }
  }

  /** Relations the store holds on a node although the plan does not want them. */
  function Unwanted(plan: Plan, snap: Snapshot, item: Item): set<Relation> {
    CurrentRelations(Lookup(snap, IdOf(plan, item))) - DesiredRelations(plan, item)
  }

  lemma RelationOpsMembers(plan: Plan, snap: Snapshot, item: Item)
    ensures forall op :: op in RelationOps(plan, snap, item) ==>
      Named(op) && op.identity == IdOf(plan, item) && (op.action.CreateRelation? || op.action.RemoveManagedRelation?)
    ensures forall op :: op in RelationOps(plan, snap, item) ==>
      (op.action.CreateRelation? ==> op.action.relation in DesiredRelations(plan, item))
      && (op.action.RemoveManagedRelation? ==> op.action.relation in Unwanted(plan, snap, item))
    ensures RelationOps(plan, snap, item) == [] <==>
      CurrentRelations(Lookup(snap, IdOf(plan, item))) == DesiredRelations(plan, item)
  {
    var missing, surplus := Missing(plan, snap, item), Surplus(plan, snap, item);
    var desired, current := DesiredRelations(plan, item), CurrentRelations(Lookup(snap, IdOf(plan, item)));
    AddOpsMembers(plan, snap, item, missing, current);
    RemoveOpsMembers(plan, snap, item, surplus, current + Members(missing));
    if missing == [] && surplus == [] {
      assert desired == current by {
        assert forall r :: r in desired - current ==> r in missing;
        assert forall r :: r in current - desired ==> r in surplus;
      }
    } else if missing != [] {
      assert missing[0] in missing;
    } else {
      assert surplus[0] in surplus;
    }
  }

  /** The operations of one node before its relations, at most one of each kind and in this order. */
  lemma FieldOpsMembers(plan: Plan, snap: Snapshot, item: Item)
    ensures forall op :: op in FieldOps(plan, snap, item) ==>
      && Named(op) && op.identity == IdOf(plan, item)
      && (op.action.ReactivateWorkPackage? || op.action.UpdateManagedFields? || op.action.SetParent?)
  {
    hide Managed, Predicted, Existing, ParentChanged;
  }

  lemma {:induction false} NodesOpsMembers(plan: Plan, snap: Snapshot, items: seq<Item>, op: Operation)
    ensures op in NodesOps(plan, snap, items) <==> exists item :: item in items && op in NodeOps(plan, snap, item)
    decreases |items|
  {
    hide NodeOps;
    if items != [] {
      var front, last := items[..|items| - 1], items[|items| - 1];
      NodesOpsMembers(plan, snap, front, op);
      assert items == front + [last];
    }
  }

  lemma {:induction false} CreateOpsMembers(plan: Plan, snap: Snapshot, items: seq<Item>)
    ensures forall op :: op in CreateOps(plan, snap, items) ==>
      Named(op) && op.action.CreateWorkPackage? && op.identity in Planned(plan, items) && op.identity !in snap.packages
    decreases |items|
  {
    if items != [] {
      CreateOpsMembers(plan, snap, items[..|items| - 1]);
      assert items == items[..|items| - 1] + [items[|items| - 1]];
      assert Planned(plan, items[..|items| - 1]) <= Planned(plan, items);
    }
  }

  lemma {:induction false} SupersedeOpsMembers(plan: Plan, snap: Snapshot, identities: seq<Identity>)
    ensures forall op :: op in SupersedeOps(plan, snap, identities) ==>
      Named(op) && op.action.MarkSuperseded? && op.identity in identities && Removed(plan, snap, op.identity)
    decreases |identities|
  {
    if identities != [] {
      SupersedeOpsMembers(plan, snap, identities[..|identities| - 1]);
      assert identities == identities[..|identities| - 1] + [identities[|identities| - 1]];
    }
  }

  // ----- what an empty diff means -----

  ghost predicate NodeConverged(plan: Plan, item: Item, packages: map<Identity, Package>) {
    && IdOf(plan, item) in packages
    && var package := packages[IdOf(plan, item)];
       && package.hash == Managed(plan, item)
       && package.parent == ParentFor(DesiredParent(plan, item))
       && package.relations == DesiredRelations(plan, item)
       && !package.status.Superseded?
  }

  /** The store shows exactly the plan: its nodes as wanted, its former nodes superseded. */
  ghost predicate Converged(plan: Plan, packages: map<Identity, Package>) {
    && (forall item | item in plan.items :: NodeConverged(plan, item, packages))
    && (forall id | id in packages && id.plan == plan.id && id.key !in Keys(plan.items) ::
          packages[id].status.Superseded?)
  }

  lemma NodeOpsEmpty(plan: Plan, snap: Snapshot, item: Item)
    requires IdOf(plan, item) in snap.packages
    ensures NodeOps(plan, snap, item) == [] <==> NodeConverged(plan, item, snap.packages)
  {
    hide RelationOps, DesiredRelations;
    RelationOpsMembers(plan, snap, item);
  }

  lemma {:induction false} CreateOpsEmpty(plan: Plan, snap: Snapshot, items: seq<Item>)
    ensures CreateOps(plan, snap, items) == [] <==> forall item | item in items :: IdOf(plan, item) in snap.packages
    decreases |items|
  {
    if items != [] {
      CreateOpsEmpty(plan, snap, items[..|items| - 1]);
      assert items == items[..|items| - 1] + [items[|items| - 1]];
    }
  }

  lemma {:induction false} NodesOpsEmpty(plan: Plan, snap: Snapshot, items: seq<Item>)
    requires forall item | item in items :: IdOf(plan, item) in snap.packages
    ensures NodesOps(plan, snap, items) == [] <==> forall item | item in items :: NodeConverged(plan, item, snap.packages)
    decreases |items|
  {
    hide NodeOps, NodeConverged;
    if items != [] {
      var front, last := items[..|items| - 1], items[|items| - 1];
      assert items == front + [last];
      NodesOpsEmpty(plan, snap, front);
      NodeOpsEmpty(plan, snap, last);
    }
  }

  lemma {:induction false} SupersedeOpsEmpty(plan: Plan, snap: Snapshot, identities: seq<Identity>)
    ensures SupersedeOps(plan, snap, identities) == [] <==> forall id | id in identities :: !Removed(plan, snap, id)
    decreases |identities|
  {
    if identities != [] {
      SupersedeOpsEmpty(plan, snap, identities[..|identities| - 1]);
      assert identities == identities[..|identities| - 1] + [identities[|identities| - 1]];
    }
  }

  /** The diff is empty exactly when the store already shows the plan. */
  lemma EmptyDiffIffConverged(plan: Plan, snap: Snapshot)
    requires UniqueKeys(plan.items)
    ensures Diff(plan, snap) == [] <==> Converged(plan, snap.packages)
  {
    hide CreateOps, NodesOps, SupersedeOps, SortItems;
    var items, identities := SortItems(plan.items), SortedIdentities(snap.packages.Keys);
    SortKeepsUnique(plan.items);
    CreateOpsEmpty(plan, snap, items);
    SupersedeOpsEmpty(plan, snap, identities);
    if CreateOps(plan, snap, items) == [] {
      NodesOpsEmpty(plan, snap, items);
      assert Mutations(plan, snap) == [] <==>
             NodesOps(plan, snap, items) == [] && SupersedeOps(plan, snap, identities) == [];
    } else {
      assert Mutations(plan, snap) != [];
      var item :| item in items && IdOf(plan, item) !in snap.packages;
      assert item in plan.items && !NodeConverged(plan, item, snap.packages);
    }
  }

  // ----- where the list ends -----

  /** What publication leaves alone in a package it touches or not. */
  ghost predicate Preserved(plan: Plan, snap: Snapshot, id: Identity, package: Package)
    requires id in snap.packages
  {
    var was := snap.packages[id];
    && package.evidence == was.evidence
    && (id.plan != plan.id || (id.key !in Keys(plan.items) && was.status.Superseded?) ==> package == was)
    && (id.plan == plan.id && id.key !in Keys(plan.items) ==> package == was.(status := Superseded))
    && (id.plan == plan.id && id.key in Keys(plan.items) && !was.status.Superseded? ==> package.status == was.status)
  }

  /** Every planned node holds its final package. */
  ghost predicate Completed(plan: Plan, snap: Snapshot, packages: map<Identity, Package>) {
    forall item | item in plan.items ::
      IdOf(plan, item) in packages && packages[IdOf(plan, item)] == Final(plan, item, Start(plan, snap, item))
  }

  lemma MutationsSound(plan: Plan, snap: Snapshot)
    requires WellReferenced(plan)
    ensures Sound(snap, Loaded(snap), Mutations(plan, snap))
    ensures var w := Fold(Loaded(snap), Mutations(plan, snap));
            && w.duplicates == {}
            && Converged(plan, w.packages)
            && w.packages.Keys == snap.packages.Keys + Planned(plan, plan.items)
            && Completed(plan, snap, w.packages)
            && forall id | id in snap.packages :: Preserved(plan, snap, id, w.packages[id])
  {
    var items, identities := SortItems(plan.items), SortedIdentities(snap.packages.Keys);
    SortKeepsUnique(plan.items);
    assert items[..|items|] == items && identities[..|identities|] == identities;
    CreateSegment(plan, snap, items, |items|);
    var creates := CreateOps(plan, snap, items);
    var w1 := Fold(Loaded(snap), creates);
    NodesSegment(plan, snap, items, w1, |items|);
    var nodes := NodesOps(plan, snap, items);
    var w2 := Fold(w1, nodes);
    forall id | Removed(plan, snap, id) ensures w2.packages[id] == snap.packages[id] {
      assert id !in Planned(plan, items);
    }
    RemovalSegment(plan, snap, identities, w2, |identities|);
    var removals := SupersedeOps(plan, snap, identities);
    SoundAppend(snap, Loaded(snap), creates, nodes);
    SoundAppend(snap, Loaded(snap), creates + nodes, removals);
    Outcome(plan, snap, items, identities, w1, w2, Fold(w2, removals));
  }

  lemma Outcome(plan: Plan, snap: Snapshot, items: seq<Item>, identities: seq<Identity>, w1: World, w2: World, w: World)
    requires forall item :: item in items <==> item in plan.items
    requires Lists(identities, snap.packages.Keys)
    requires AfterCreation(plan, snap, items, w1) && AfterRevision(plan, snap, items, w1, w2)
    requires AfterRemoval(plan, snap, identities, w2, w)
    ensures Converged(plan, w.packages)
    ensures w.packages.Keys == snap.packages.Keys + Planned(plan, plan.items)
    ensures Completed(plan, snap, w.packages)
    ensures forall id | id in snap.packages :: Preserved(plan, snap, id, w.packages[id])
  {
    hide Final, NodeConverged, Preserved, Start;
    assert Planned(plan, items) == Planned(plan, plan.items);
    forall item | item in plan.items ensures NodeConverged(plan, item, w.packages) {
      assert IdOf(plan, item) in Planned(plan, items);
      FinalConverged(plan, snap, item, w.packages);
    }
    forall id | id in snap.packages ensures Preserved(plan, snap, id, w.packages[id]) {
      PackagePreserved(plan, snap, items, identities, w1, w2, w, id);
    }
    forall id | id in w.packages && id.plan == plan.id && id.key !in Keys(plan.items)
      ensures w.packages[id].status.Superseded?
    {
      KeyPlanned(plan, id);
    }
  }

  lemma PackagePreserved(plan: Plan, snap: Snapshot, items: seq<Item>, identities: seq<Identity>,
                         w1: World, w2: World, w: World, id: Identity)
    requires forall item :: item in items <==> item in plan.items
    requires Lists(identities, snap.packages.Keys)
    requires AfterCreation(plan, snap, items, w1) && AfterRevision(plan, snap, items, w1, w2)
    requires AfterRemoval(plan, snap, identities, w2, w)
    requires id in snap.packages
    ensures id in w.packages && Preserved(plan, snap, id, w.packages[id])
  {
    hide Final, Preserved;
    assert Planned(plan, items) == Planned(plan, plan.items);
    if id in Planned(plan, items) {
      var item :| item in items && id == IdOf(plan, item);
      assert w.packages[id] == Final(plan, item, snap.packages[id]);
      FinalPreserves(plan, snap, item);
    } else {
      KeyPlanned(plan, id);
      OthersPreserved(plan, snap, id);
    }
  }

  lemma KeyPlanned(plan: Plan, id: Identity)
    ensures id in Planned(plan, plan.items) <==> id.plan == plan.id && id.key in Keys(plan.items)
  {
    if id.plan == plan.id && id.key in Keys(plan.items) {
      var item :| item in plan.items && item.key == id.key;
      assert id == IdOf(plan, item);
    }
  }

  lemma FinalConverged(plan: Plan, snap: Snapshot, item: Item, packages: map<Identity, Package>)
    requires IdOf(plan, item) in packages
    requires packages[IdOf(plan, item)] == Final(plan, item, Start(plan, snap, item))
    ensures NodeConverged(plan, item, packages)
  {
  }

  lemma FinalPreserves(plan: Plan, snap: Snapshot, item: Item)
    requires IdOf(plan, item) in snap.packages && item in plan.items
    ensures Preserved(plan, snap, IdOf(plan, item), Final(plan, item, snap.packages[IdOf(plan, item)]))
  {
  }

  lemma OthersPreserved(plan: Plan, snap: Snapshot, id: Identity)
    requires id in snap.packages && !(id.plan == plan.id && id.key in Keys(plan.items))
    ensures Preserved(plan, snap, id, if Removed(plan, snap, id) then snap.packages[id].(status := Superseded)
                                      else snap.packages[id])
  {
  }

  /**
    The simulation of a whole diff. Every operation meets, in exactly the world its
    predecessors produced, a passing guard if and only if it is not stale and reaches what it
    relates; the recovery gate answers as `RecoveryGateExact` says.
   */
  lemma DiffSound(plan: Plan, snap: Snapshot)
    requires WellReferenced(plan)
    ensures Sound(snap, Loaded(snap), Diff(plan, snap))
    ensures Fold(Loaded(snap), Diff(plan, snap)) == Fold(Loaded(snap), Mutations(plan, snap))
  {
    hide Judged, Mutations, Sound, Fold, AuditOp;
    var ops := Mutations(plan, snap);
    MutationsSound(plan, snap);
    if ops != [] {
      AuditJudged(plan, snap, ops, Fold(Loaded(snap), ops));
      SoundExtend(snap, Loaded(snap), ops, AuditOp(plan, snap, ops));
    }
  }

  lemma AuditJudged(plan: Plan, snap: Snapshot, ops: seq<Operation>, w: World)
    ensures Judged(snap, AuditOp(plan, snap, ops), w) && Effect(AuditOp(plan, snap, ops), w) == w
  {
  }

  /** Applying the diff converges, keeps every unrelated package, and leaves an empty diff. */
  lemma DiffConverges(plan: Plan, snap: Snapshot, digest: string)
    requires WellReferenced(plan)
    ensures var w := Fold(Loaded(snap), Diff(plan, snap));
            && w.duplicates == {}
            && Converged(plan, w.packages)
            && Diff(plan, Snapshot(digest, w.packages)) == []
            && Completed(plan, snap, w.packages)
            && w.packages.Keys == snap.packages.Keys + Planned(plan, plan.items)
            && forall id | id in snap.packages :: Preserved(plan, snap, id, w.packages[id])
  {
    MutationsSound(plan, snap);
    DiffSound(plan, snap);
    EmptyDiffIffConverged(plan, Snapshot(digest, Fold(Loaded(snap), Diff(plan, snap)).packages));
  }

  // ----- when every guard passes -----

  /** A node the publisher cannot finish in one publication: unmanaged parent, other relations. */
  ghost predicate Unpublishable(plan: Plan, snap: Snapshot, item: Item) {
    && IdOf(plan, item) in snap.packages
    && snap.packages[IdOf(plan, item)].parent.UnmanagedParent?
    && snap.packages[IdOf(plan, item)].relations != DesiredRelations(plan, item)
  }

  ghost predicate EveryGuardPasses(plan: Plan, snap: Snapshot) {
    forall i :: 0 <= i < |Diff(plan, snap)| ==> Passes(Diff(plan, snap)[i], After(Loaded(snap), Diff(plan, snap), i))
  }

  /** A package of the plan under a parent whose identity the snapshot does not show, unless it is out of use already. */
  ghost predicate Displaced(plan: Plan, snap: Snapshot, id: Identity) {
    && Foreign(snap, id) && id.plan == plan.id
    && (id.key in Keys(plan.items) || !snap.packages[id].status.Superseded?)
  }

  /** The operations that arrive stale come from nodes under unmanaged parents and from displaced packages. */
  lemma StaleExact(plan: Plan, snap: Snapshot)
    requires UniqueKeys(plan.items)
    ensures (exists op :: op in Diff(plan, snap) && Stale(op, snap))
       <==> (exists item :: item in plan.items && Unpublishable(plan, snap, item)) || (exists id :: Displaced(plan, snap, id))
  {
    hide Diff, Unpublishable, Displaced, Stale;
    if op :| op in Diff(plan, snap) && Stale(op, snap) {
      StaleOrigin(plan, snap, op);
    }
    if item :| item in plan.items && Unpublishable(plan, snap, item) {
      var op := UnpublishableEmits(plan, snap, item);
    }
    if id :| Displaced(plan, snap, id) {
      var op := DisplacedEmits(plan, snap, id);
    }
  }

  lemma StaleOrigin(plan: Plan, snap: Snapshot, op: Operation)
    requires UniqueKeys(plan.items) && op in Diff(plan, snap) && Stale(op, snap)
    ensures (exists item :: item in plan.items && Unpublishable(plan, snap, item)) || Displaced(plan, snap, op.identity)
  {
    hide CreateOps, NodesOps, SupersedeOps, RelationOps, FieldOps, SortItems, SortedIdentities, DesiredRelations;
    var items, identities := SortItems(plan.items), SortedIdentities(snap.packages.Keys);
    SortKeepsUnique(plan.items);
    CreateOpsMembers(plan, snap, items);
    SupersedeOpsMembers(plan, snap, identities);
    if op in NodesOps(plan, snap, items) {
      NodesOpsMembers(plan, snap, items, op);
      var item :| item in items && op in NodeOps(plan, snap, item);
      RelationOpsMembers(plan, snap, item);
      FieldOpsMembers(plan, snap, item);
      if !Foreign(snap, op.identity) {
        assert op in RelationOps(plan, snap, item);
        assert item in plan.items && Unpublishable(plan, snap, item);
      }
    }
  }

  lemma NodeOpEmitted(plan: Plan, snap: Snapshot, item: Item, op: Operation)
    requires UniqueKeys(plan.items) && item in plan.items && op in NodeOps(plan, snap, item)
    ensures op in Diff(plan, snap)
  {
    hide CreateOps, NodesOps, SupersedeOps, NodeOps, SortItems, SortedIdentities;
    SortKeepsUnique(plan.items);
    NodesOpsMembers(plan, snap, SortItems(plan.items), op);
  }

  lemma UnpublishableEmits(plan: Plan, snap: Snapshot, item: Item) returns (op: Operation)
    requires UniqueKeys(plan.items) && item in plan.items && Unpublishable(plan, snap, item)
    ensures op in Diff(plan, snap) && Stale(op, snap)
  {
    hide Diff, RelationOps, FieldOps, DesiredRelations;
    RelationOpsMembers(plan, snap, item);
    op := RelationOps(plan, snap, item)[0];
    assert op in RelationOps(plan, snap, item) && op in NodeOps(plan, snap, item);
    NodeOpEmitted(plan, snap, item, op);
  }

  /** A planned node under a foreign parent is always re-parented. */
  lemma ForeignReparented(plan: Plan, snap: Snapshot, item: Item) returns (op: Operation)
    requires UniqueKeys(plan.items) && item in plan.items && Foreign(snap, IdOf(plan, item))
    ensures op in Diff(plan, snap) && op.identity == IdOf(plan, item) && op.action == SetParent(DesiredParent(plan, item))
  {
    hide Diff, RelationOps, Managed, Predicted;
    op := ParentOps(plan, snap, item)[0];
    assert op in FieldOps(plan, snap, item) && op in NodeOps(plan, snap, item);
    NodeOpEmitted(plan, snap, item, op);
  }

  lemma DisplacedEmits(plan: Plan, snap: Snapshot, id: Identity) returns (op: Operation)
    requires UniqueKeys(plan.items) && Displaced(plan, snap, id)
    ensures op in Diff(plan, snap) && Stale(op, snap)
  {
    hide Diff, SupersedeOp;
    if id.key in Keys(plan.items) {
      var item :| item in plan.items && item.key == id.key;
      op := ForeignReparented(plan, snap, item);
    } else {
      op := SupersedeOp(plan, snap, id);
      RemovalEmitted(plan, snap, id);
      SupersedeShape(plan, snap, id);
    }
  }

  lemma SupersedeShape(plan: Plan, snap: Snapshot, id: Identity)
    requires id in snap.packages
    ensures SupersedeOp(plan, snap, id).identity == id && SupersedeOp(plan, snap, id).action == MarkSuperseded
  {
  }

  lemma RemovalEmitted(plan: Plan, snap: Snapshot, id: Identity)
    requires Removed(plan, snap, id)
    ensures SupersedeOp(plan, snap, id) in Diff(plan, snap)
  {
    hide CreateOps, NodesOps, SupersedeOps, SupersedeOp, SortItems;
    SupersedeEmitted(plan, snap, SortedIdentities(snap.packages.Keys), id);
  }

  lemma {:induction false} SupersedeEmitted(plan: Plan, snap: Snapshot, identities: seq<Identity>, id: Identity)
    requires id in identities && Removed(plan, snap, id)
    ensures SupersedeOp(plan, snap, id) in SupersedeOps(plan, snap, identities)
    decreases |identities|
  {
    hide SupersedeOp;
    var front, last := identities[..|identities| - 1], identities[|identities| - 1];
    assert identities == front + [last];
    if id != last {
      SupersedeEmitted(plan, snap, front, id);
    }
  }

  // ----- relations whose other end the store does not list -----

  /** Every identity the store holds once the missing nodes are created. */
  function AllIdentities(plan: Plan, snap: Snapshot): set<Identity> {
    snap.packages.Keys + Planned(plan, plan.items)
  }

  /** A node with an unwanted relation to something that is neither in the snapshot nor planned. */
  ghost predicate Stranded(plan: Plan, snap: Snapshot, item: Item) {
    exists relation :: relation in Unwanted(plan, snap, item) && relation.target !in AllIdentities(plan, snap)
  }

  lemma {:induction false} KeysKept(w: World, ops: seq<Operation>)
    requires forall op :: op in ops ==> !op.action.CreateWorkPackage?
    ensures Fold(w, ops).packages.Keys == w.packages.Keys
    decreases |ops|
  {
    if ops != [] {
      assert ops[0] in ops;
      assert Effect(ops[0], w).packages.Keys == w.packages.Keys;
      KeysKept(Effect(ops[0], w), ops[1..]);
    }
  }

  /** Creations come first. */
  lemma NoLateCreation(plan: Plan, snap: Snapshot, i: nat)
    requires |CreateOps(plan, snap, SortItems(plan.items))| <= i < |Diff(plan, snap)|
    ensures !Diff(plan, snap)[i].action.CreateWorkPackage?
  {
    hide CreateOps, NodesOps, SupersedeOps, RelationOps, FieldOps, SortItems, SortedIdentities;
    var items, identities := SortItems(plan.items), SortedIdentities(snap.packages.Keys);
    SupersedeOpsMembers(plan, snap, identities);
    var op, creates := Diff(plan, snap)[i], CreateOps(plan, snap, items);
    var nodes, removals := NodesOps(plan, snap, items), SupersedeOps(plan, snap, identities);
    if i < |creates| + |nodes| {
      assert op == nodes[i - |creates|] && op in nodes;
      NodesOpsMembers(plan, snap, items, op);
      var item :| item in items && op in NodeOps(plan, snap, item);
      RelationOpsMembers(plan, snap, item);
      FieldOpsMembers(plan, snap, item);
    } else if i < |creates| + |nodes| + |removals| {
      assert op == removals[i - |creates| - |nodes|] && op in removals;
    }
  }

  lemma EarlyCreation(plan: Plan, snap: Snapshot, i: nat)
    requires i < |CreateOps(plan, snap, SortItems(plan.items))|
    ensures i < |Diff(plan, snap)| && Diff(plan, snap)[i].action.CreateWorkPackage?
  {
    hide CreateOps, NodesOps, SupersedeOps, SortItems, SortedIdentities;
    var creates := CreateOps(plan, snap, SortItems(plan.items));
    CreateOpsMembers(plan, snap, SortItems(plan.items));
    assert Diff(plan, snap)[i] == creates[i] && creates[i] in creates;
  }

  lemma FinalKeys(plan: Plan, snap: Snapshot)
    requires WellReferenced(plan)
    ensures Fold(Loaded(snap), Diff(plan, snap)).packages.Keys == AllIdentities(plan, snap)
  {
    hide Diff, Mutations, Fold, Sound, Converged, Preserved, WellReferenced;
    MutationsSound(plan, snap);
    DiffSound(plan, snap);
  }

  /** A relation operation meets a store that already holds every identity it ever will. */
  lemma RelationsMeetAll(plan: Plan, snap: Snapshot, i: nat)
    requires WellReferenced(plan) && i < |Diff(plan, snap)|
    requires !Diff(plan, snap)[i].action.CreateWorkPackage?
    ensures After(Loaded(snap), Diff(plan, snap), i).packages.Keys == AllIdentities(plan, snap)
  {
    hide Diff, Fold, CreateOps, SortItems, WellReferenced, AllIdentities;
    var ops := Diff(plan, snap);
    if i < |CreateOps(plan, snap, SortItems(plan.items))| {
      EarlyCreation(plan, snap, i);
    }
    FinalKeys(plan, snap);
    forall op | op in ops[i..] ensures !op.action.CreateWorkPackage? {
      var j :| 0 <= j < |ops[i..]| && ops[i..][j] == op;
      NoLateCreation(plan, snap, i + j);
    }
    KeysKept(Fold(Loaded(snap), ops[..i]), ops[i..]);
    FoldAppend(Loaded(snap), ops[..i], ops[i..]);
    assert ops[..i] + ops[i..] == ops;
  }

  lemma {:induction false} EveryRemovalEmitted(plan: Plan, snap: Snapshot, item: Item, removed: seq<Relation>,
                                               virtual: set<Relation>, relation: Relation)
    requires relation in removed
    ensures exists op :: op in RemoveOps(plan, snap, item, removed, virtual) && op.action == RemoveManagedRelation(relation)
    decreases |removed|
  {
    var earlier, last := removed[..|removed| - 1], removed[|removed| - 1];
    assert removed == earlier + [last];
    if relation == last {
      var op := RelationOp(plan, snap, item, RemoveManagedRelation(last), virtual - Members(earlier));
      assert op in RemoveOps(plan, snap, item, removed, virtual);
    } else {
      EveryRemovalEmitted(plan, snap, item, earlier, virtual, relation);
      var op :| op in RemoveOps(plan, snap, item, earlier, virtual) && op.action == RemoveManagedRelation(relation);
      assert op in RemoveOps(plan, snap, item, removed, virtual);
    }
  }

  /** The operations a diff cannot reach are the removals from stranded nodes. */
  lemma UnreachableIffStranded(plan: Plan, snap: Snapshot)
    requires WellReferenced(plan)
    ensures (exists op :: op in Diff(plan, snap) && !Reaches(op, AllIdentities(plan, snap)))
       <==> (exists item :: item in plan.items && Stranded(plan, snap, item))
  {
    var items := SortItems(plan.items);
    SortKeepsUnique(plan.items);
    if op :| op in Diff(plan, snap) && !Reaches(op, AllIdentities(plan, snap)) {
      var item := RelationOpOwner(plan, snap, op);
      UnreachableIsStranded(plan, snap, item, op);
    }
    if item :| item in plan.items && Stranded(plan, snap, item) {
      var op := StrandedIsEmitted(plan, snap, item);
    }
  }

  /** A relation operation of the diff belongs to a planned node. */
  lemma RelationOpOwner(plan: Plan, snap: Snapshot, op: Operation) returns (item: Item)
    requires UniqueKeys(plan.items)
    requires op in Diff(plan, snap) && (op.action.CreateRelation? || op.action.RemoveManagedRelation?)
    ensures item in plan.items && op in RelationOps(plan, snap, item)
  {
    hide CreateOps, NodesOps, SupersedeOps, RelationOps, FieldOps, SortItems, SortedIdentities;
    var items := SortItems(plan.items);
    SortKeepsUnique(plan.items);
    CreateOpsMembers(plan, snap, items);
    SupersedeOpsMembers(plan, snap, SortedIdentities(snap.packages.Keys));
    assert op in NodesOps(plan, snap, items);
    NodesOpsMembers(plan, snap, items, op);
    item :| item in items && op in NodeOps(plan, snap, item);
    FieldOpsMembers(plan, snap, item);
  }

  lemma UnreachableIsStranded(plan: Plan, snap: Snapshot, item: Item, op: Operation)
    requires WellReferenced(plan) && item in plan.items
    requires op in RelationOps(plan, snap, item) && !Reaches(op, AllIdentities(plan, snap))
    ensures Stranded(plan, snap, item)
  {
    hide DesiredRelations, RelationOps, Unwanted;
    RelationOpsMembers(plan, snap, item);
    if op.action.CreateRelation? {
      RelationTargetsKnown(plan, item, op.action.relation);
      KeyPlanned(plan, op.action.relation.target);
    }
  }

  lemma StrandedIsEmitted(plan: Plan, snap: Snapshot, item: Item) returns (op: Operation)
    requires UniqueKeys(plan.items) && item in plan.items && Stranded(plan, snap, item)
    ensures op in Diff(plan, snap) && !Reaches(op, AllIdentities(plan, snap))
  {
    hide CreateOps, NodesOps, SupersedeOps, FieldOps, SortItems, SortedIdentities, DesiredRelations, AddOps, RemoveOps;
    var relation :| relation in Unwanted(plan, snap, item) && relation.target !in AllIdentities(plan, snap);
    var current := CurrentRelations(Lookup(snap, IdOf(plan, item)));
    var surplus, virtual := Surplus(plan, snap, item), current + Members(Missing(plan, snap, item));
    EveryRemovalEmitted(plan, snap, item, surplus, virtual, relation);
    op :| op in RemoveOps(plan, snap, item, surplus, virtual) && op.action == RemoveManagedRelation(relation);
    assert op in RelationOps(plan, snap, item) && op in NodeOps(plan, snap, item);
    SortKeepsUnique(plan.items);
    NodesOpsMembers(plan, snap, SortItems(plan.items), op);
  }

  lemma PreemptedIsStale(op: Operation, snap: Snapshot)
    requires Preempted(op, snap)
    ensures Stale(op, snap)
  {
  }

  lemma JudgedPasses(snap: Snapshot, op: Operation, w: World)
    requires Judged(snap, op, w)
    ensures Passes(op, w) <==> !Stale(op, snap) && Reaches(op, w.packages.Keys)
  {
    hide Stale, Reaches, PublisherCheck, AdapterAccepts, Postcondition, Effect;
  }

  /** Whether one operation of the diff passes, in exactly the world its predecessors produced. */
  lemma GuardAt(plan: Plan, snap: Snapshot, i: nat)
    requires WellReferenced(plan) && i < |Diff(plan, snap)|
    ensures Passes(Diff(plan, snap)[i], After(Loaded(snap), Diff(plan, snap), i)) <==>
      !Stale(Diff(plan, snap)[i], snap) && Reaches(Diff(plan, snap)[i], AllIdentities(plan, snap))
  {
    hide Diff, Stale, Judged, Passes, After, AllIdentities;
    var op := Diff(plan, snap)[i];
    DiffSound(plan, snap);
    JudgedPasses(snap, op, After(Loaded(snap), Diff(plan, snap), i));
    if op.action.CreateRelation? || op.action.RemoveManagedRelation? {
      RelationsMeetAll(plan, snap, i);
    }
  }

  /** Nothing in the store stands in the way of the plan. */
  ghost predicate Unobstructed(plan: Plan, snap: Snapshot) {
    && (forall item | item in plan.items :: !Unpublishable(plan, snap, item) && !Stranded(plan, snap, item))
    && (forall id :: !Displaced(plan, snap, id))
  }

  /**
    The guards of a diff all pass exactly when no existing node has an unmanaged parent and
    relations to change, none has an unwanted relation to something the store does not list,
    and no package of the plan hangs under a parent whose identity the snapshot does not show.
   */
  lemma GuardChain(plan: Plan, snap: Snapshot)
    requires WellReferenced(plan)
    ensures EveryGuardPasses(plan, snap) <==> Unobstructed(plan, snap)
  {
    hide Diff, Stale, Reaches, AllIdentities, Unpublishable, Stranded, Displaced, Passes, After, Loaded;
    StaleExact(plan, snap);
    UnreachableIffStranded(plan, snap);
    hide WellReferenced;
    var ops := Diff(plan, snap);
    forall i | 0 <= i < |ops|
      ensures Passes(ops[i], After(Loaded(snap), ops, i)) <==> !Stale(ops[i], snap) && Reaches(ops[i], AllIdentities(plan, snap))
    {
      GuardAt(plan, snap, i);
    }
    if op :| op in ops && (Stale(op, snap) || !Reaches(op, AllIdentities(plan, snap))) {
      var i :| 0 <= i < |ops| && ops[i] == op;
      assert !Passes(ops[i], After(Loaded(snap), ops, i));
    }
  }

  /**
    The recovery gate, exactly. Just before an effect it answers landed only for a re-parenting
    to the identity that an unlisted parent carries already; just after it answers landed unless
    the operation is stale and no re-parenting. An operation that already committed passes the
    publisher's check again exactly if it re-states a status and is not stale.
   */
  lemma RecoveryGateExact(plan: Plan, snap: Snapshot, i: nat)
    requires WellReferenced(plan) && i < |Diff(plan, snap)|
    requires !Diff(plan, snap)[i].action.RecordAudit?
    ensures var ops := Diff(plan, snap);
            && Postcondition(ops[i], After(Loaded(snap), ops, i))
               == (if Preempted(ops[i], snap) then Landed else NotLanded)
            && Postcondition(ops[i], After(Loaded(snap), ops, i + 1))
               == (if Stale(ops[i], snap) && !ops[i].action.SetParent? then NotLanded else Landed)
            && (PublisherCheck(ops[i], After(Loaded(snap), ops, i + 1)) <==>
                  ChangesStatus(ops[i].action) && !Stale(ops[i], snap))
  {
    hide Diff, Stale, Preempted, Postcondition, PublisherCheck, AdapterAccepts, Effect, Fold;
    var ops := Diff(plan, snap);
    DiffSound(plan, snap);
    assert Judged(snap, ops[i], After(Loaded(snap), ops, i));
    AfterStep(Loaded(snap), ops, i);
  }

  /**
    A concrete publication that its own guards reject: node `a` hangs under an unmanaged work
    package and gains one blocker.
   */
  lemma UnmanagedParentRejected() returns (plan: Plan, snap: Snapshot)
    ensures WellReferenced(plan) && !EveryGuardPasses(plan, snap)
    ensures forall item | item in plan.items :: !Stranded(plan, snap, item)
    ensures forall id :: !Displaced(plan, snap, id)
  {
    hide WellReferenced, EveryGuardPasses, AllIdentities, DesiredRelations, Stranded, Managed;
    var a, b;
    plan, a, b := BlockedPlan(None);
    snap := Snapshot("", map[IdOf(plan, a) := Package(Managed(plan, a), UnmanagedParent, {}, New, None)]);
    BlockerWanted(plan, a);
    assert Unpublishable(plan, snap, a);
    GuardChain(plan, snap);
    NothingStranded(plan, snap);
  }

  /** A plan of two items, the first one blocked by the second and perhaps under it. */
  lemma BlockedPlan(parent: Option<string>) returns (plan: Plan, a: Item, b: Item)
    requires parent.None? || parent.value == "b"
    ensures plan.id == "p" && plan.items == [a, b] && a in plan.items && b in plan.items && WellReferenced(plan)
    ensures a.key == "a" && b.key == "b" && a.blockedBy == ["b"] && a.parent == parent
  {
    a := Item("a", "", parent, ["b"], [], [], [], [], []);
    b := Item("b", "", None, [], [], [], [], [], []);
    plan := Plan("p", 1, 7, None, None, [a, b]);
    assert References(a) == {"b"} && References(b) == {};
    TwoItems(plan, a, b);
  }

  lemma BlockerWanted(plan: Plan, item: Item)
    requires item.blockedBy == ["b"]
    ensures Relation(BlockedBy, Identity(plan.id, "b")) in DesiredRelations(plan, item)
  {
  }

  lemma TwoItems(plan: Plan, a: Item, b: Item)
    requires plan.items == [a, b] && a.key == "a" && b.key == "b" && b.parent.None?
    requires a.parent.None? || a.parent.value == "b"
    requires References(a) <= {"b"} && References(b) == {}
    ensures WellReferenced(plan)
  {
    hide References;
    assert "a" != "b" && Keys(plan.items) == {"a", "b"} by {
      assert a in plan.items && b in plan.items;
    }
  }

  /** Without any relation in the store no node is stranded. */
  lemma NothingStranded(plan: Plan, snap: Snapshot)
    requires forall id | id in snap.packages :: snap.packages[id].relations == {}
    ensures forall item :: !Stranded(plan, snap, item)
  {
    hide DesiredRelations, AllIdentities;
    forall item ensures Unwanted(plan, snap, item) == {} {
      assert CurrentRelations(Lookup(snap, IdOf(plan, item))) == {};
    }
  }

  /**
    A second one, without any unmanaged parent: node `a` holds one unwanted relation to a work
    package that the snapshot does not list.
   */
  lemma StrandedRelationRejected() returns (plan: Plan, snap: Snapshot)
    ensures WellReferenced(plan) && !EveryGuardPasses(plan, snap)
    ensures forall item | item in plan.items :: !Unpublishable(plan, snap, item)
    ensures forall id :: !Displaced(plan, snap, id)
  {
    hide WellReferenced, EveryGuardPasses, Managed;
    var a, b;
    plan, a, b := BlockedPlan(None);
    var away := Relation(SequenceAfter, Identity("q", "moved"));
    snap := Snapshot("", map[IdOf(plan, a) := Package(Managed(plan, a), NoParent, {away}, New, None)]);
    MovedUnwanted(plan, snap, a, away);
    GuardChain(plan, snap);
  }

  lemma MovedUnwanted(plan: Plan, snap: Snapshot, item: Item, away: Relation)
    requires WellReferenced(plan) && item in plan.items && IdOf(plan, item) in snap.packages
    requires away in snap.packages[IdOf(plan, item)].relations
    requires away.target.plan != plan.id && away.target !in snap.packages
    ensures Stranded(plan, snap, item)
  {
    hide WellReferenced, DesiredRelations;
    if away in DesiredRelations(plan, item) {
      RelationTargetsKnown(plan, item, away);
    }
    assert away in Unwanted(plan, snap, item);
  }

  /** The recovery gate answers landed although the effect is still to come. */
  ghost predicate LandedBefore(plan: Plan, snap: Snapshot, i: nat)
    requires i < |Diff(plan, snap)|
  {
    Postcondition(Diff(plan, snap)[i], After(Loaded(snap), Diff(plan, snap), i)) == Landed
  }

  /**
    A third one: node `a`, planned under `b`, hangs under a work package outside the listing that
    carries the identity of `b` already. Its re-parenting is refused, and the recovery gate takes
    it for landed before anything was sent.
   */
  lemma ForeignParentRejected() returns (plan: Plan, snap: Snapshot)
    ensures WellReferenced(plan) && !EveryGuardPasses(plan, snap)
    ensures forall item | item in plan.items :: !Unpublishable(plan, snap, item) && !Stranded(plan, snap, item)
    ensures exists i :: 0 <= i < |Diff(plan, snap)| && LandedBefore(plan, snap, i)
  {
    hide WellReferenced, EveryGuardPasses, AllIdentities, DesiredRelations, Stranded, Managed, Diff, Postcondition, After;
    var a, b;
    plan, a, b := BlockedPlan(Some("b"));
    var outside := ForeignParent(Identity(plan.id, "b"));
    snap := Snapshot("", map[IdOf(plan, a) := Package(Managed(plan, a), outside, {}, New, None)]);
    assert Displaced(plan, snap, IdOf(plan, a));
    GuardChain(plan, snap);
    NothingStranded(plan, snap);
    UniqueFromReferenced(plan);
    var op := ForeignReparented(plan, snap, a);
    var i :| 0 <= i < |Diff(plan, snap)| && Diff(plan, snap)[i] == op;
    RecoveryGateExact(plan, snap, i);
    assert LandedBefore(plan, snap, i);
  }

  lemma UniqueFromReferenced(plan: Plan)
    requires WellReferenced(plan)
    ensures UniqueKeys(plan.items)
  {
  }
}
