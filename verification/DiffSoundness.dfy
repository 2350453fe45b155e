/**
  Simulation of an emitted operation list against the store: what every operation meets
  on arrival, what the recovery gate answers around it, and where the whole list ends.
 */
module DiffSoundness {
  import opened Basics
  import opened Ordering
  import opened Backlog
  import opened Operations
  import opened PlanDiff

  /** The node's parent has an identity that the snapshot does not show. */
  predicate Foreign(snap: Snapshot, identity: Identity) {
    identity in snap.packages && snap.packages[identity].parent.ForeignParent?
  }

  /**
    An operation whose prediction of the parent is wrong on arrival: a relation operation on a
    node with an unmanaged parent, which the list re-parents first but keeps predicting, and any
    operation on a node whose parent the snapshot shows without its identity.
   */
  predicate Stale(op: Operation, snap: Snapshot) {
    || ((op.action.CreateRelation? || op.action.RemoveManagedRelation?) && UnmanagedFlag(Lookup(snap, op.identity)))
    || (!op.action.RecordAudit? && Foreign(snap, op.identity))
  }

  /** A re-parenting to the very identity that the unlisted parent carries. */
  predicate Preempted(op: Operation, snap: Snapshot) {
    && op.action.SetParent? && op.action.parent.Some? && Foreign(snap, op.identity)
    && snap.packages[op.identity].parent.identity == op.action.parent.value
  }

  /** The adapter has to resolve the other end of a relation before it can add or remove it. */
  predicate Reaches(op: Operation, identities: set<Identity>) {
    op.action.CreateRelation? || op.action.RemoveManagedRelation? ==> op.action.relation.target in identities
  }

  /** Everything claimed of one operation arriving in world `w`. */
  ghost predicate Judged(snap: Snapshot, op: Operation, w: World) {
    var next := Effect(op, w);
    && (PublisherCheck(op, w) <==> !Stale(op, snap))
    && (AdapterAccepts(op, w) <==> !Stale(op, snap) && Reaches(op, w.packages.Keys))
    && (!op.action.RecordAudit? ==>
          && Postcondition(op, w) == (if Preempted(op, snap) then Landed else NotLanded)
          && Postcondition(op, next) == (if Stale(op, snap) && !op.action.SetParent? then NotLanded else Landed))
    && (PublisherCheck(op, next) <==> (ChangesStatus(op.action) && !Stale(op, snap)) || op.action.RecordAudit?)
  }

  /** Each operation is judged in exactly the world its predecessors produce. */
  ghost predicate Sound(snap: Snapshot, w: World, ops: seq<Operation>) {
    forall i :: 0 <= i < |ops| ==> Judged(snap, ops[i], After(w, ops, i))
  }

  lemma SoundAppend(snap: Snapshot, w: World, a: seq<Operation>, b: seq<Operation>)
    requires Sound(snap, w, a) && Sound(snap, Fold(w, a), b)
    ensures Sound(snap, w, a + b) && Fold(w, a + b) == Fold(Fold(w, a), b)
  {
    hide Judged, Fold;
    FoldAppend(w, a, b);
    forall i | 0 <= i < |a + b| ensures Judged(snap, (a + b)[i], After(w, a + b, i)) {
      if i < |a| {
        assert (a + b)[..i] == a[..i];
        assert Judged(snap, a[i], After(w, a, i));
      } else {
        assert (a + b)[..i] == a + b[..i - |a|];
        FoldAppend(w, a, b[..i - |a|]);
        assert Judged(snap, b[i - |a|], After(Fold(w, a), b, i - |a|));
      }
    }
  }

  lemma SoundNone(snap: Snapshot, w: World)
    ensures Sound(snap, w, []) && Fold(w, []) == w
  {
  }

  lemma SoundOne(snap: Snapshot, w: World, op: Operation)
    requires Judged(snap, op, w)
    ensures Sound(snap, w, [op]) && Fold(w, [op]) == Effect(op, w)
  {
    assert [op][..0] == [];
  }

  function Put(w: World, identity: Identity, package: Package): World {
    w.(packages := w.packages[identity := package])
  }

  // ----- one node -----

  function Created(plan: Plan, item: Item): Package {
    Package(Managed(plan, item), NoParent, {}, New, Some(Pending))
  }

  /** The package of an item once creation has run. */
  function Start(plan: Plan, snap: Snapshot, item: Item): Package {
    if IdOf(plan, item) in snap.packages then snap.packages[IdOf(plan, item)] else Created(plan, item)
  }

  function Reactivated(package: Package): Package {
    if package.status.Superseded? then package.(status := Ready) else package
  }

  function Retitled(plan: Plan, item: Item, package: Package): Package {
    Reactivated(package).(hash := Managed(plan, item))
  }

  function Reparented(plan: Plan, item: Item, package: Package): Package {
    Retitled(plan, item, package).(parent := ParentFor(DesiredParent(plan, item)))
  }

  /** The package of an item as the plan wants it. */
  function Final(plan: Plan, item: Item, package: Package): Package {
    Reparented(plan, item, package).(relations := DesiredRelations(plan, item))
  }

  /** The node's package is `package` and every planned identity resolves. */
  ghost predicate Stands(plan: Plan, item: Item, w: World, package: Package) {
    && w.duplicates == {}
    && IdOf(plan, item) in w.packages && w.packages[IdOf(plan, item)] == package
    && forall key | key in Keys(plan.items) :: Identity(plan.id, key) in w.packages
  }

  lemma StatusSegment(plan: Plan, snap: Snapshot, item: Item, w: World)
    requires Stands(plan, item, w, Start(plan, snap, item))
    ensures Sound(snap, w, StatusOps(plan, snap, item))
    ensures Fold(w, StatusOps(plan, snap, item)) == Put(w, IdOf(plan, item), Reactivated(Start(plan, snap, item)))
  {
    var ops := StatusOps(plan, snap, item);
    if ops == [] {
      SoundNone(snap, w);
      assert w.packages == w.packages[IdOf(plan, item) := Start(plan, snap, item)];
    } else {
      SoundOne(snap, w, ops[0]);
    }
  }

  lemma ContentSegment(plan: Plan, snap: Snapshot, item: Item, w: World)
    requires Stands(plan, item, w, Reactivated(Start(plan, snap, item)))
    ensures Sound(snap, w, ContentOps(plan, snap, item))
    ensures Fold(w, ContentOps(plan, snap, item)) == Put(w, IdOf(plan, item), Retitled(plan, item, Start(plan, snap, item)))
  {
    var ops := ContentOps(plan, snap, item);
    if ops == [] {
      SoundNone(snap, w);
      assert w.packages == w.packages[IdOf(plan, item) := Retitled(plan, item, Start(plan, snap, item))];
    } else {
      SoundOne(snap, w, ops[0]);
    }
  }

  lemma ParentSegment(plan: Plan, snap: Snapshot, item: Item, w: World)
    requires WellReferenced(plan) && item in plan.items
    requires Stands(plan, item, w, Retitled(plan, item, Start(plan, snap, item)))
    ensures Sound(snap, w, ParentOps(plan, snap, item))
    ensures Fold(w, ParentOps(plan, snap, item)) == Put(w, IdOf(plan, item), Reparented(plan, item, Start(plan, snap, item)))
  {
    hide Judged, Sound, Fold, Effect, Managed, WellReferenced;
    var ops := ParentOps(plan, snap, item);
    if ops == [] {
      SoundNone(snap, w);
      assert w.packages == w.packages[IdOf(plan, item) := Reparented(plan, item, Start(plan, snap, item))];
    } else {
      ParentGuards(plan, snap, item, w, ops[0]);
      ParentGates(plan, snap, item, w, ops[0]);
      SoundOne(snap, w, ops[0]);
    }
  }

  lemma ParentGuards(plan: Plan, snap: Snapshot, item: Item, w: World, op: Operation)
    requires WellReferenced(plan) && item in plan.items
    requires Stands(plan, item, w, Retitled(plan, item, Start(plan, snap, item)))
    requires ParentOps(plan, snap, item) == [op]
    ensures PublisherCheck(op, w) <==> !Stale(op, snap)
    ensures AdapterAccepts(op, w) <==> !Stale(op, snap) && Reaches(op, w.packages.Keys)
  {
    hide Managed;
  }

  lemma ParentGates(plan: Plan, snap: Snapshot, item: Item, w: World, op: Operation)
    requires Stands(plan, item, w, Retitled(plan, item, Start(plan, snap, item)))
    requires ParentOps(plan, snap, item) == [op]
    requires PublisherCheck(op, w) <==> !Stale(op, snap)
    requires AdapterAccepts(op, w) <==> !Stale(op, snap) && Reaches(op, w.packages.Keys)
    ensures Judged(snap, op, w)
    ensures Effect(op, w) == Put(w, IdOf(plan, item), Reparented(plan, item, Start(plan, snap, item)))
  {
    hide Managed, AdapterAccepts, WellReferenced;
  }

  lemma RelationStep(plan: Plan, snap: Snapshot, item: Item, w: World, action: Action, package: Package)
    requires Stands(plan, item, w, package)
    requires package.hash == Managed(plan, item) && package.parent == ParentFor(DesiredParent(plan, item))
    requires action.CreateRelation? || action.RemoveManagedRelation?
    requires action.CreateRelation? <==> action.relation !in package.relations
    ensures Judged(snap, RelationOp(plan, snap, item, action, package.relations), w)
    ensures Effect(RelationOp(plan, snap, item, action, package.relations), w)
         == Put(w, IdOf(plan, item), Change(action, package))
  {
    var next := Change(action, package);
    assert next.relations != package.relations by {
      assert action.relation in next.relations <==> action.CreateRelation?;
    }
  }

  lemma SoundExtend(snap: Snapshot, w: World, ops: seq<Operation>, op: Operation)
    requires Sound(snap, w, ops) && Judged(snap, op, Fold(w, ops))
    ensures Sound(snap, w, ops + [op]) && Fold(w, ops + [op]) == Effect(op, Fold(w, ops))
  {
    SoundOne(snap, Fold(w, ops), op);
    SoundAppend(snap, w, ops, [op]);
  }

  /** A package that only its relations still separate from the plan. */
  ghost predicate Settled(plan: Plan, item: Item, w: World, package: Package) {
    && Stands(plan, item, w, package)
    && package.hash == Managed(plan, item)
    && package.parent == ParentFor(DesiredParent(plan, item))
  }

  function Holding(package: Package, relations: set<Relation>): Package {
    package.(relations := relations)
  }

  lemma Snoc(relations: seq<Relation>)
    requires relations != [] && Lists(relations, Members(relations))
    ensures Members(relations) == Members(relations[..|relations| - 1]) + {relations[|relations| - 1]}
    ensures relations[|relations| - 1] !in Members(relations[..|relations| - 1])
    ensures Lists(relations[..|relations| - 1], Members(relations[..|relations| - 1]))
  {
    assert relations == relations[..|relations| - 1] + [relations[|relations| - 1]];
  }

  lemma {:induction false} AddSegment(plan: Plan, snap: Snapshot, item: Item, w: World, package: Package,
                                      added: seq<Relation>)
    requires Settled(plan, item, w, package)
    requires Lists(added, Members(added)) && Members(added) !! package.relations
    ensures Sound(snap, w, AddOps(plan, snap, item, added, package.relations))
    ensures Fold(w, AddOps(plan, snap, item, added, package.relations))
         == Put(w, IdOf(plan, item), Holding(package, package.relations + Members(added)))
    decreases |added|
  {
    if added == [] {
      SoundNone(snap, w);
      assert package.relations + Members(added) == package.relations;
      assert w.packages == w.packages[IdOf(plan, item) := package];
    } else {
      var earlier, relation := added[..|added| - 1], added[|added| - 1];
      Snoc(added);
      AddSegment(plan, snap, item, w, package, earlier);
      AddOne(plan, snap, item, w, package, earlier, relation);
      assert added == earlier + [relation];
    }
  }

  lemma AddOne(plan: Plan, snap: Snapshot, item: Item, w: World, package: Package,
               earlier: seq<Relation>, relation: Relation)
    requires Settled(plan, item, w, package)
    requires relation !in Members(earlier) && relation !in package.relations
    requires var ops := AddOps(plan, snap, item, earlier, package.relations);
             && Sound(snap, w, ops)
             && Fold(w, ops) == Put(w, IdOf(plan, item), Holding(package, package.relations + Members(earlier)))
    ensures var ops := AddOps(plan, snap, item, earlier + [relation], package.relations);
            && Sound(snap, w, ops)
            && Fold(w, ops)
               == Put(w, IdOf(plan, item), Holding(package, package.relations + Members(earlier + [relation])))
  {
    hide Judged, Sound, Fold, Managed, DesiredParent, ParentFor, RelationOp;
    var ops := AddOps(plan, snap, item, earlier, package.relations);
    var held := Holding(package, package.relations + Members(earlier));
    var op := RelationOp(plan, snap, item, CreateRelation(relation), held.relations);
    RelationStep(plan, snap, item, Fold(w, ops), CreateRelation(relation), held);
    SoundExtend(snap, w, ops, op);
    assert AddOps(plan, snap, item, earlier + [relation], package.relations) == ops + [op] by {
      assert (earlier + [relation])[..|earlier|] == earlier;
    }
    assert held.relations + {relation} == package.relations + Members(earlier + [relation]);
  }

  lemma {:induction false} RemoveSegment(plan: Plan, snap: Snapshot, item: Item, w: World, package: Package,
                                         removed: seq<Relation>)
    requires Settled(plan, item, w, package)
    requires Lists(removed, Members(removed)) && Members(removed) <= package.relations
    ensures Sound(snap, w, RemoveOps(plan, snap, item, removed, package.relations))
    ensures Fold(w, RemoveOps(plan, snap, item, removed, package.relations))
         == Put(w, IdOf(plan, item), Holding(package, package.relations - Members(removed)))
    decreases |removed|
  {
    if removed == [] {
      SoundNone(snap, w);
      assert package.relations - Members(removed) == package.relations;
      assert w.packages == w.packages[IdOf(plan, item) := package];
    } else {
      var earlier, relation := removed[..|removed| - 1], removed[|removed| - 1];
      Snoc(removed);
      RemoveSegment(plan, snap, item, w, package, earlier);
      RemoveOne(plan, snap, item, w, package, earlier, relation);
      assert removed == earlier + [relation];
    }
  }

  lemma RemoveOne(plan: Plan, snap: Snapshot, item: Item, w: World, package: Package,
                  earlier: seq<Relation>, relation: Relation)
    requires Settled(plan, item, w, package)
    requires relation !in Members(earlier) && relation in package.relations
    requires var ops := RemoveOps(plan, snap, item, earlier, package.relations);
             && Sound(snap, w, ops)
             && Fold(w, ops) == Put(w, IdOf(plan, item), Holding(package, package.relations - Members(earlier)))
    ensures var ops := RemoveOps(plan, snap, item, earlier + [relation], package.relations);
            && Sound(snap, w, ops)
            && Fold(w, ops)
               == Put(w, IdOf(plan, item), Holding(package, package.relations - Members(earlier + [relation])))
  {
    hide Judged, Sound, Fold, Managed, DesiredParent, ParentFor, RelationOp;
    var ops := RemoveOps(plan, snap, item, earlier, package.relations);
    var held := Holding(package, package.relations - Members(earlier));
    var op := RelationOp(plan, snap, item, RemoveManagedRelation(relation), held.relations);
    RelationStep(plan, snap, item, Fold(w, ops), RemoveManagedRelation(relation), held);
    SoundExtend(snap, w, ops, op);
    assert RemoveOps(plan, snap, item, earlier + [relation], package.relations) == ops + [op] by {
      assert (earlier + [relation])[..|earlier|] == earlier;
    }
    assert held.relations - {relation} == package.relations - Members(earlier + [relation]);
  }

  lemma PutPut(w: World, identity: Identity, a: Package, b: Package)
    ensures Put(Put(w, identity, a), identity, b) == Put(w, identity, b)
  {
  }

  lemma NodeFields(plan: Plan, snap: Snapshot, item: Item, w: World)
    requires WellReferenced(plan) && item in plan.items
    requires Stands(plan, item, w, Start(plan, snap, item))
    ensures Sound(snap, w, FieldOps(plan, snap, item))
    ensures Fold(w, FieldOps(plan, snap, item))
         == Put(w, IdOf(plan, item), Reparented(plan, item, Start(plan, snap, item)))
  {
    var id, start := IdOf(plan, item), Start(plan, snap, item);
    var a, b, c := StatusOps(plan, snap, item), ContentOps(plan, snap, item), ParentOps(plan, snap, item);
    StatusSegment(plan, snap, item, w);
    var w1 := Put(w, id, Reactivated(start));
    ContentSegment(plan, snap, item, w1);
    SoundAppend(snap, w, a, b);
    PutPut(w, id, Reactivated(start), Retitled(plan, item, start));
    var w2 := Put(w, id, Retitled(plan, item, start));
    ParentSegment(plan, snap, item, w2);
    SoundAppend(snap, w, a + b, c);
    PutPut(w, id, Retitled(plan, item, start), Reparented(plan, item, start));
  }

  lemma NodeRelations(plan: Plan, snap: Snapshot, item: Item, w: World, package: Package)
    requires WellReferenced(plan) && item in plan.items
    requires snap.packages.Keys <= w.packages.Keys
    requires Settled(plan, item, w, package)
    requires package.relations == CurrentRelations(Lookup(snap, IdOf(plan, item)))
    ensures Sound(snap, w, RelationOps(plan, snap, item))
    ensures Fold(w, RelationOps(plan, snap, item))
         == Put(w, IdOf(plan, item), Holding(package, DesiredRelations(plan, item)))
  {
    var missing, surplus := Missing(plan, snap, item), Surplus(plan, snap, item);
    var desired, current := DesiredRelations(plan, item), package.relations;
    assert Members(missing) == desired - current && Members(surplus) == current - desired;
    AddSegment(plan, snap, item, w, package, missing);
    var full := Holding(package, current + Members(missing));
    var w1 := Put(w, IdOf(plan, item), full);
    RemoveSegment(plan, snap, item, w1, full, surplus);
    SoundAppend(snap, w, AddOps(plan, snap, item, missing, current),
                RemoveOps(plan, snap, item, surplus, full.relations));
    assert full.relations - Members(surplus) == desired;
    PutPut(w, IdOf(plan, item), full, Holding(package, desired));
  }

  lemma NodeSegment(plan: Plan, snap: Snapshot, item: Item, w: World)
    requires WellReferenced(plan) && item in plan.items
    requires snap.packages.Keys <= w.packages.Keys
    requires Stands(plan, item, w, Start(plan, snap, item))
    ensures Sound(snap, w, NodeOps(plan, snap, item))
    ensures Fold(w, NodeOps(plan, snap, item))
         == Put(w, IdOf(plan, item), Final(plan, item, Start(plan, snap, item)))
  {
    var id, start := IdOf(plan, item), Start(plan, snap, item);
    var package := Reparented(plan, item, start);
    var w1 := Put(w, id, package);
    NodeFields(plan, snap, item, w);
    NodeRelations(plan, snap, item, w1, package);
    SoundAppend(snap, w, FieldOps(plan, snap, item), RelationOps(plan, snap, item));
    PutPut(w, id, package, Final(plan, item, start));
  }

  // ----- the whole list -----

  function Planned(plan: Plan, items: seq<Item>): set<Identity> {
    set item | item in items :: IdOf(plan, item)
  }

  function Loaded(snap: Snapshot): World {
    World(snap.packages, {})
  }

  /** The world once the missing nodes among `items` have been created. */
  ghost predicate AfterCreation(plan: Plan, snap: Snapshot, items: seq<Item>, w: World) {
    && w.duplicates == {}
    && w.packages.Keys == snap.packages.Keys + Planned(plan, items)
    && (forall id | id in snap.packages :: w.packages[id] == snap.packages[id])
    && (forall item | item in items :: w.packages[IdOf(plan, item)] == Start(plan, snap, item))
  }

  lemma PrefixUnique(items: seq<Item>, i: nat)
    requires UniqueKeys(items) && i < |items|
    ensures forall item :: item in items[..i + 1] <==> item in items[..i] || item == items[i]
    ensures forall item :: item in items[..i] ==> item.key != items[i].key
  {
    assert items[..i + 1] == items[..i] + [items[i]];
    forall item | item in items[..i] ensures item.key != items[i].key {
      var j :| 0 <= j < i && items[j] == item;
      assert items[j].key != items[i].key;
    }
  }

  lemma CreateOne(plan: Plan, snap: Snapshot, done: seq<Item>, item: Item, w: World)
    requires AfterCreation(plan, snap, done, w) && IdOf(plan, item) !in snap.packages
    requires forall other :: other in done ==> other.key != item.key
    ensures Judged(snap, CreateOp(plan, snap, item), w)
    ensures Effect(CreateOp(plan, snap, item), w) == Put(w, IdOf(plan, item), Created(plan, item))
  {
    assert IdOf(plan, item) !in Planned(plan, done);
  }

  lemma {:induction false} CreateSegment(plan: Plan, snap: Snapshot, items: seq<Item>, i: nat)
    requires UniqueKeys(items) && i <= |items|
    ensures Sound(snap, Loaded(snap), CreateOps(plan, snap, items[..i]))
    ensures AfterCreation(plan, snap, items[..i], Fold(Loaded(snap), CreateOps(plan, snap, items[..i])))
  {
    hide Judged, Sound, Fold, AfterCreation, CreateOps, CreateOp, UniqueKeys;
    if i == 0 {
      NothingCreated(plan, snap);
      assert items[..0] == [];
    } else {
      CreateSegment(plan, snap, items, i - 1);
      CreateOpsStep(plan, snap, items, i - 1);
      PrefixUnique(items, i - 1);
      CreateStep(plan, snap, items[..i - 1], items[..i], items[i - 1]);
    }
  }

  lemma NothingCreated(plan: Plan, snap: Snapshot)
    ensures Sound(snap, Loaded(snap), CreateOps(plan, snap, []))
    ensures AfterCreation(plan, snap, [], Fold(Loaded(snap), CreateOps(plan, snap, [])))
  {
    SoundNone(snap, Loaded(snap));
  }

  lemma CreateStep(plan: Plan, snap: Snapshot, done: seq<Item>, more: seq<Item>, item: Item)
    requires Sound(snap, Loaded(snap), CreateOps(plan, snap, done))
    requires AfterCreation(plan, snap, done, Fold(Loaded(snap), CreateOps(plan, snap, done)))
    requires forall other :: other in more <==> other in done || other == item
    requires forall other :: other in done ==> other.key != item.key
    requires CreateOps(plan, snap, more)
          == CreateOps(plan, snap, done) + if IdOf(plan, item) in snap.packages then [] else [CreateOp(plan, snap, item)]
    ensures Sound(snap, Loaded(snap), CreateOps(plan, snap, more))
    ensures AfterCreation(plan, snap, more, Fold(Loaded(snap), CreateOps(plan, snap, more)))
  {
    hide Judged, Sound, Fold, Effect, AfterCreation, Created, CreateOp, Start, CreateOps;
    var ops := CreateOps(plan, snap, done);
    var w := Fold(Loaded(snap), ops);
    if IdOf(plan, item) in snap.packages {
      assert ops + [] == ops;
      CreationGrows(plan, snap, done, more, item, w, w);
    } else {
      CreateOne(plan, snap, done, item, w);
      SoundExtend(snap, Loaded(snap), ops, CreateOp(plan, snap, item));
      CreationGrows(plan, snap, done, more, item, w, Put(w, IdOf(plan, item), Created(plan, item)));
    }
  }

  lemma CreationGrows(plan: Plan, snap: Snapshot, done: seq<Item>, more: seq<Item>, item: Item, w: World, w': World)
    requires AfterCreation(plan, snap, done, w)
    requires forall other :: other in more <==> other in done || other == item
    requires forall other :: other in done ==> other.key != item.key
    requires w' == if IdOf(plan, item) in snap.packages then w else Put(w, IdOf(plan, item), Created(plan, item))
    ensures AfterCreation(plan, snap, more, w')
  {
    assert Planned(plan, more) == Planned(plan, done) + {IdOf(plan, item)};
  }

  /** The world once the nodes of `items` have been revised. */
  ghost predicate AfterRevision(plan: Plan, snap: Snapshot, items: seq<Item>, before: World, w: World) {
    && w.duplicates == {}
    && w.packages.Keys == before.packages.Keys
    && (forall item | item in items && IdOf(plan, item) in w.packages ::
          w.packages[IdOf(plan, item)] == Final(plan, item, Start(plan, snap, item)))
    && (forall id | id in w.packages && id !in Planned(plan, items) :: w.packages[id] == before.packages[id])
  }

  lemma RevisionStands(plan: Plan, snap: Snapshot, items: seq<Item>, done: seq<Item>, item: Item, before: World, w: World)
    requires AfterCreation(plan, snap, items, before) && AfterRevision(plan, snap, done, before, w)
    requires item in items && (forall other :: other in items <==> other in plan.items)
    requires forall other :: other in done ==> other.key != item.key
    ensures Stands(plan, item, w, Start(plan, snap, item))
    ensures snap.packages.Keys <= w.packages.Keys
  {
    forall key | key in Keys(plan.items) ensures Identity(plan.id, key) in w.packages {
      var other :| other in plan.items && other.key == key;
      assert IdOf(plan, other) in Planned(plan, items);
    }
    assert IdOf(plan, item) in Planned(plan, items) && IdOf(plan, item) !in Planned(plan, done);
  }

  lemma RevisionGrows(plan: Plan, snap: Snapshot, done: seq<Item>, more: seq<Item>, item: Item, before: World, w: World)
    requires AfterRevision(plan, snap, done, before, w) && IdOf(plan, item) in w.packages
    requires forall other :: other in more <==> other in done || other == item
    requires forall other :: other in done ==> other.key != item.key
    ensures AfterRevision(plan, snap, more, before,
                          Put(w, IdOf(plan, item), Final(plan, item, Start(plan, snap, item))))
  {
    assert Planned(plan, more) == Planned(plan, done) + {IdOf(plan, item)};
  }

  lemma {:induction false} NodesSegment(plan: Plan, snap: Snapshot, items: seq<Item>, before: World, i: nat)
    requires WellReferenced(plan)
    requires UniqueKeys(items) && i <= |items| && (forall item :: item in items <==> item in plan.items)
    requires AfterCreation(plan, snap, items, before)
    ensures Sound(snap, before, NodesOps(plan, snap, items[..i]))
    ensures AfterRevision(plan, snap, items[..i], before, Fold(before, NodesOps(plan, snap, items[..i])))
  {
    hide Judged, Sound, Fold, AfterCreation, AfterRevision, NodesOps, NodeOps, UniqueKeys;
    if i == 0 {
      NothingRevised(plan, snap, items, before);
      assert items[..0] == [];
    } else {
      NodesSegment(plan, snap, items, before, i - 1);
      NodesOpsStep(plan, snap, items, i - 1);
      PrefixUnique(items, i - 1);
      NodesStep(plan, snap, items, items[..i - 1], items[..i], items[i - 1], before);
    }
  }

  lemma NothingRevised(plan: Plan, snap: Snapshot, items: seq<Item>, before: World)
    requires AfterCreation(plan, snap, items, before)
    ensures Sound(snap, before, NodesOps(plan, snap, []))
    ensures AfterRevision(plan, snap, [], before, Fold(before, NodesOps(plan, snap, [])))
  {
    SoundNone(snap, before);
  }

  lemma NodesStep(plan: Plan, snap: Snapshot, items: seq<Item>, done: seq<Item>, more: seq<Item>, item: Item, before: World)
    requires WellReferenced(plan) && item in plan.items && (forall other :: other in items <==> other in plan.items)
    requires AfterCreation(plan, snap, items, before)
    requires Sound(snap, before, NodesOps(plan, snap, done))
    requires AfterRevision(plan, snap, done, before, Fold(before, NodesOps(plan, snap, done)))
    requires forall other :: other in more <==> other in done || other == item
    requires forall other :: other in done ==> other.key != item.key
    requires NodesOps(plan, snap, more) == NodesOps(plan, snap, done) + NodeOps(plan, snap, item)
    ensures Sound(snap, before, NodesOps(plan, snap, more))
    ensures AfterRevision(plan, snap, more, before, Fold(before, NodesOps(plan, snap, more)))
  {
    hide Judged, Sound, Fold, AfterCreation, AfterRevision, NodesOps, NodeOps, Final, Start, WellReferenced;
    var ops := NodesOps(plan, snap, done);
    var w := Fold(before, ops);
    RevisionStands(plan, snap, items, done, item, before, w);
    NodeSegment(plan, snap, item, w);
    SoundAppend(snap, before, ops, NodeOps(plan, snap, item));
    StandsThere(plan, item, w, Start(plan, snap, item));
    RevisionGrows(plan, snap, done, more, item, before, w);
  }

  lemma StandsThere(plan: Plan, item: Item, w: World, package: Package)
    requires Stands(plan, item, w, package)
    ensures IdOf(plan, item) in w.packages
  {
  }

  /** The world once the removed nodes among `identities` have been superseded. */
  ghost predicate AfterRemoval(plan: Plan, snap: Snapshot, identities: seq<Identity>, before: World, w: World) {
    && w.duplicates == {}
    && w.packages.Keys == before.packages.Keys
    && (forall id | id in w.packages && !(id in identities && Removed(plan, snap, id)) ::
          w.packages[id] == before.packages[id])
    && (forall id | id in identities && Removed(plan, snap, id) && id in w.packages ::
          w.packages[id] == snap.packages[id].(status := Superseded))
  }

  lemma SupersedeOne(plan: Plan, snap: Snapshot, identity: Identity, w: World)
    requires Removed(plan, snap, identity)
    requires w.duplicates == {} && identity in w.packages && w.packages[identity] == snap.packages[identity]
    ensures Judged(snap, SupersedeOp(plan, snap, identity), w)
    ensures Effect(SupersedeOp(plan, snap, identity), w)
         == Put(w, identity, snap.packages[identity].(status := Superseded))
  {
  }

  lemma RemovalGrows(plan: Plan, snap: Snapshot, done: seq<Identity>, identity: Identity, before: World, w: World)
    requires AfterRemoval(plan, snap, done, before, w)
    requires Removed(plan, snap, identity) && identity in w.packages
    ensures AfterRemoval(plan, snap, done + [identity], before,
                         Put(w, identity, snap.packages[identity].(status := Superseded)))
  {
    assert forall id :: id in done + [identity] <==> id in done || id == identity;
  }

  lemma RemovalStays(plan: Plan, snap: Snapshot, done: seq<Identity>, identity: Identity, before: World, w: World)
    requires AfterRemoval(plan, snap, done, before, w) && !Removed(plan, snap, identity)
    ensures AfterRemoval(plan, snap, done + [identity], before, w)
  {
    assert forall id :: id in done + [identity] <==> id in done || id == identity;
  }

  lemma {:induction false} RemovalSegment(plan: Plan, snap: Snapshot, identities: seq<Identity>, before: World, i: nat)
    requires i <= |identities| && Lists(identities, snap.packages.Keys)
    requires before.duplicates == {} && snap.packages.Keys <= before.packages.Keys
    requires forall id | Removed(plan, snap, id) :: before.packages[id] == snap.packages[id]
    ensures Sound(snap, before, SupersedeOps(plan, snap, identities[..i]))
    ensures AfterRemoval(plan, snap, identities[..i], before, Fold(before, SupersedeOps(plan, snap, identities[..i])))
  {
    if i == 0 {
      SoundNone(snap, before);
    } else {
      var identity, done := identities[i - 1], identities[..i - 1];
      RemovalSegment(plan, snap, identities, before, i - 1);
      SupersedeOpsStep(plan, snap, identities, i - 1);
      assert identities[..i] == done + [identity];
      assert identity !in done;
      var ops := SupersedeOps(plan, snap, done);
      var w := Fold(before, ops);
      hide Judged, Fold, Sound, Effect;
      if Removed(plan, snap, identity) {
        SupersedeOne(plan, snap, identity, w);
        SoundExtend(snap, before, ops, SupersedeOp(plan, snap, identity));
        RemovalGrows(plan, snap, done, identity, before, w);
      } else {
        assert ops + [] == ops;
        RemovalStays(plan, snap, done, identity, before, w);
      }
    }
  }
}
