/** What a converged store and the outcome of a diff hold, by the fields of the plan. */
module PublishedState {
  import opened Basics
  import opened Backlog
  import opened Operations
  import opened PlanDiff
  import opened DiffSoundness
  import opened DiffTheorems
  import opened DiffContents

  /** The package shows the item: its fields, where it belongs, and the relations it owns. */
  ghost predicate Published(plan: Plan, item: Item, package: Package) {
    && Describes(plan, item, package.hash)
    && InPlace(plan, item, package.parent)
    && (forall relation :: relation in package.relations <==> Wanted(plan, item, relation))
    && !package.status.Superseded?
  }

  lemma PublishedExact(plan: Plan, item: Item, packages: map<Identity, Package>)
    ensures NodeConverged(plan, item, packages) <==>
      Identity(plan.id, item.key) in packages && Published(plan, item, packages[Identity(plan.id, item.key)])
  {
    hide Managed, Describes, DesiredRelations, Wanted;
    var id := Identity(plan.id, item.key);
    if id in packages {
      ManagedExact(plan, item, packages[id].hash);
      WantedExact(plan, item);
      assert packages[id].parent == ParentFor(DesiredParent(plan, item)) <==> InPlace(plan, item, packages[id].parent);
    }
  }

  lemma FormerKeys(plan: Plan, snap: Snapshot, id: Identity)
    ensures Former(plan, snap, id) <==>
      id in snap.packages && id.plan == plan.id && id.key !in Keys(plan.items) && !snap.packages[id].status.Superseded?
  {
  }

  /**
    The diff is empty if and only if the store holds every item by its fields, each where it
    belongs, with its relations and in use, and no former package of the plan is still in use.
   */
  lemma EmptyDiffExact(plan: Plan, snap: Snapshot)
    requires UniqueKeys(plan.items)
    ensures Diff(plan, snap) == [] <==>
      && (forall item :: item in plan.items ==>
            Identity(plan.id, item.key) in snap.packages
            && Published(plan, item, snap.packages[Identity(plan.id, item.key)]))
      && (forall id :: !Former(plan, snap, id))
  {
    hide Diff, NodeConverged, Published, Former, UniqueKeys;
    EmptyDiffIffConverged(plan, snap);
    forall item
      ensures NodeConverged(plan, item, snap.packages) <==>
                Identity(plan.id, item.key) in snap.packages
                && Published(plan, item, snap.packages[Identity(plan.id, item.key)])
    {
      PublishedExact(plan, item, snap.packages);
    }
    hide Removed, Keys;
    forall id
      ensures Former(plan, snap, id) <==>
                id in snap.packages && id.plan == plan.id && id.key !in Keys(plan.items) && !snap.packages[id].status.Superseded?
    {
      FormerKeys(plan, snap, id);
    }
  }

  /** The package of a planned node after publication. */
  ghost predicate Arrived(plan: Plan, snap: Snapshot, item: Item, package: Package) {
    var id := Identity(plan.id, item.key);
    && Published(plan, item, package)
    && if id in snap.packages then
         && package.evidence == snap.packages[id].evidence
         && package.status == if snap.packages[id].status.Superseded? then Ready else snap.packages[id].status
       else package.evidence == Some("pending") && package.status == New
  }

  lemma FinalArrived(plan: Plan, snap: Snapshot, item: Item, package: Package)
    requires package == Final(plan, item, Start(plan, snap, item))
    ensures Arrived(plan, snap, item, package)
  {
    hide Managed, DesiredRelations;
    var packages := map[IdOf(plan, item) := package];
    assert NodeConverged(plan, item, packages);
    hide NodeConverged, Published;
    PublishedExact(plan, item, packages);
  }

  /**
    The store after the diff was applied, package by package: planned nodes hold their items by
    the fields, former nodes differ from the snapshot in their status alone, and every other
    package is as it was. Nothing else exists and no identity is duplicated.
   */
  lemma OutcomeExact(plan: Plan, snap: Snapshot)
    requires WellReferenced(plan)
    ensures var w := Fold(Loaded(snap), Diff(plan, snap));
            && w.duplicates == {}
            && (forall item :: item in plan.items ==>
                  Identity(plan.id, item.key) in w.packages
                  && Arrived(plan, snap, item, w.packages[Identity(plan.id, item.key)]))
            && (forall id :: id in snap.packages && !(id.plan == plan.id && id.key in Keys(plan.items)) ==>
                  id in w.packages
                  && w.packages[id] == if Former(plan, snap, id) then snap.packages[id].(status := Superseded)
                                       else snap.packages[id])
            && (forall id :: id in w.packages ==> id in snap.packages || (id.plan == plan.id && id.key in Keys(plan.items)))
  {
    hide Diff, Fold, Arrived, Final, Start, Converged, WellReferenced;
    DiffConverges(plan, snap, "");
    var w := Fold(Loaded(snap), Diff(plan, snap));
    forall item | item in plan.items
      ensures Identity(plan.id, item.key) in w.packages
              && Arrived(plan, snap, item, w.packages[Identity(plan.id, item.key)])
    {
      FinalArrived(plan, snap, item, w.packages[IdOf(plan, item)]);
    }
    forall id ensures id in Planned(plan, plan.items) <==> id.plan == plan.id && id.key in Keys(plan.items) {
      KeyPlanned(plan, id);
    }
    forall id | id in snap.packages && !(id.plan == plan.id && id.key in Keys(plan.items))
      ensures w.packages[id] == if Former(plan, snap, id) then snap.packages[id].(status := Superseded)
                                else snap.packages[id]
    {
      assert Preserved(plan, snap, id, w.packages[id]);
      FormerExact(plan, snap, id);
    }
  }
}
