/** The order of the operations of a diff, which together with their contents determines the list. */
module DiffSequence {
  import opened Basics
  import opened Ordering
  import opened Backlog
  import opened Operations
  import opened PlanDiff
  import opened DiffSoundness
  import opened DiffTheorems
  import opened DiffContents

  /** Creations, then revisions of the planned nodes, then supersessions, then the audit record. */
  function Stage(action: Action): nat {
    match action
    case CreateWorkPackage(_, _) => 0
    case MarkSuperseded => 2
    case RecordAudit(_) => 3
    case _ => 1
  }

  /** Within one node: status, fields, parent, new relations, old relations. */
  function Step(action: Action): nat {
    match action
    case ReactivateWorkPackage => 0
    case UpdateManagedFields(_) => 1
    case SetParent(_) => 2
    case CreateRelation(_) => 3
    case RemoveManagedRelation(_) => 4
    case _ => 5
  }

  predicate Precedes(a: Operation, b: Operation) {
    if Stage(a.action) != Stage(b.action) then Stage(a.action) < Stage(b.action)
    else if a.identity.key != b.identity.key then TextLess(a.identity.key, b.identity.key)
    else if Step(a.action) != Step(b.action) then Step(a.action) < Step(b.action)
    else Step(a.action) in {3, 4} && Before(a.action.relation, b.action.relation)
  }

  ghost predicate Sequenced(ops: seq<Operation>) {
    forall i, j :: 0 <= i < j < |ops| ==> Precedes(ops[i], ops[j])
  }

  lemma SequencedAppend(a: seq<Operation>, b: seq<Operation>)
    requires Sequenced(a) && Sequenced(b)
    requires forall x, y | x in a && y in b :: Precedes(x, y)
    ensures Sequenced(a + b)
  {
    hide Precedes;
  }

  /** An earlier item of the sorted plan has the smaller key. */
  lemma EarlierKey(items: seq<Item>, i: nat)
    requires UniqueKeys(items) && AscendingKeys(items) && i < |items|
    ensures forall item :: item in items[..i] ==> TextLess(item.key, items[i].key)
  {
    hide TextLe;
    forall item | item in items[..i] ensures TextLess(item.key, items[i].key) {
      var j :| 0 <= j < i && items[..i][j] == item;
      assert items[j].key != items[i].key;
    }
  }

  lemma {:induction false} CreationsSequenced(plan: Plan, snap: Snapshot, items: seq<Item>, i: nat)
    requires UniqueKeys(items) && AscendingKeys(items) && i <= |items|
    ensures Sequenced(CreateOps(plan, snap, items[..i]))
  {
    hide CreateOps, TextLe, UniqueKeys, AscendingKeys, Managed;
    if i == 0 {
      NothingCreated(plan, snap, items);
    } else {
      CreationsSequenced(plan, snap, items, i - 1);
      CreateOpsStep(plan, snap, items, i - 1);
      EarlierKey(items, i - 1);
      var done, item := CreateOps(plan, snap, items[..i - 1]), items[i - 1];
      forall op | op in done ensures Precedes(op, CreateOp(plan, snap, item)) {
        CreationsExact(plan, snap, items[..i - 1], op);
      }
      if IdOf(plan, item) in snap.packages {
        assert done + [] == done;
      } else {
        SequencedAppend(done, [CreateOp(plan, snap, item)]);
      }
    }
  }

  lemma NothingCreated(plan: Plan, snap: Snapshot, items: seq<Item>)
    ensures Sequenced(CreateOps(plan, snap, items[..0]))
  {
  }

  // ----- one node -----

  lemma {:induction false} AdditionsSequenced(plan: Plan, snap: Snapshot, item: Item, added: seq<Relation>, virtual: set<Relation>)
    requires Lists(added, Members(added)) && Ascending(added, RelationLe)
    ensures Sequenced(AddOps(plan, snap, item, added, virtual))
    decreases |added|
  {
    hide Managed, Before, RelationLe, Predicted;
    if added != [] {
      var k := |added| - 1;
      Snoc(added);
      AdditionsSequenced(plan, snap, item, added[..k], virtual);
      AheadExact(added, Members(added), k);
      AddOpsMembers(plan, snap, item, added[..k], virtual);
      SequencedAppend(AddOps(plan, snap, item, added[..k], virtual),
                      [RelationOp(plan, snap, item, CreateRelation(added[k]), virtual + Members(added[..k]))]);
    }
  }

  lemma {:induction false} RemovalsSequenced(plan: Plan, snap: Snapshot, item: Item, removed: seq<Relation>, virtual: set<Relation>)
    requires Lists(removed, Members(removed)) && Ascending(removed, RelationLe)
    ensures Sequenced(RemoveOps(plan, snap, item, removed, virtual))
    decreases |removed|
  {
    hide Managed, Before, RelationLe, Predicted;
    if removed != [] {
      var k := |removed| - 1;
      Snoc(removed);
      RemovalsSequenced(plan, snap, item, removed[..k], virtual);
      AheadExact(removed, Members(removed), k);
      RemoveOpsMembers(plan, snap, item, removed[..k], virtual);
      SequencedAppend(RemoveOps(plan, snap, item, removed[..k], virtual),
                      [RelationOp(plan, snap, item, RemoveManagedRelation(removed[k]), virtual - Members(removed[..k]))]);
    }
  }

  lemma ListsMembers(relations: seq<Relation>, members: set<Relation>)
    requires Lists(relations, members)
    ensures Lists(relations, Members(relations))
  {
  }

  lemma NodeSequenced(plan: Plan, snap: Snapshot, item: Item)
    ensures Sequenced(NodeOps(plan, snap, item))
  {
    hide AddOps, RemoveOps, DesiredRelations, FieldOps, Lookup, Before, TextLess;
    var current, missing := CurrentRelations(Lookup(snap, IdOf(plan, item))), Missing(plan, snap, item);
    var surplus := Surplus(plan, snap, item);
    ListsMembers(missing, DesiredRelations(plan, item) - current);
    ListsMembers(surplus, current - DesiredRelations(plan, item));
    AdditionsSequenced(plan, snap, item, missing, current);
    RemovalsSequenced(plan, snap, item, surplus, current + Members(missing));
    AddOpsMembers(plan, snap, item, missing, current);
    RemoveOpsMembers(plan, snap, item, surplus, current + Members(missing));
    var added, removed := AddOps(plan, snap, item, missing, current), RemoveOps(plan, snap, item, surplus, current + Members(missing));
    SequencedAppend(added, removed);
    FieldsSequenced(plan, snap, item);
    FieldOpsMembers(plan, snap, item);
    SequencedAppend(FieldOps(plan, snap, item), RelationOps(plan, snap, item));
  }

  lemma FieldsSequenced(plan: Plan, snap: Snapshot, item: Item)
    ensures Sequenced(FieldOps(plan, snap, item))
  {
    hide Managed, Predicted, Existing, ParentChanged, TextLess, Before;
  }

  lemma {:induction false} NodesSequenced(plan: Plan, snap: Snapshot, items: seq<Item>, i: nat)
    requires UniqueKeys(items) && AscendingKeys(items) && i <= |items|
    ensures Sequenced(NodesOps(plan, snap, items[..i]))
  {
    hide NodesOps, NodeOps, TextLe, UniqueKeys, AscendingKeys, ForItem, Labelled;
    if i == 0 {
      NothingRevised(plan, snap, items);
    } else {
      NodesSequenced(plan, snap, items, i - 1);
      NodesOpsStep(plan, snap, items, i - 1);
      NodeSequenced(plan, snap, items[i - 1]);
      EarlierKey(items, i - 1);
      var done, node := NodesOps(plan, snap, items[..i - 1]), NodeOps(plan, snap, items[i - 1]);
      forall x, y | x in done && y in node ensures Precedes(x, y) {
        NodesOpsMembers(plan, snap, items[..i - 1], x);
        var item :| item in items[..i - 1] && x in NodeOps(plan, snap, item);
        NodeExact(plan, snap, item, x);
        NodeExact(plan, snap, items[i - 1], y);
        ItemKey(plan, snap, item, x);
        ItemKey(plan, snap, items[i - 1], y);
      }
      SequencedAppend(done, node);
    }
  }

  lemma NothingRevised(plan: Plan, snap: Snapshot, items: seq<Item>)
    ensures Sequenced(NodesOps(plan, snap, items[..0]))
  {
  }

  lemma ItemKey(plan: Plan, snap: Snapshot, item: Item, op: Operation)
    requires ForItem(plan, snap, item, op) && Revises(op.action)
    ensures op.identity.key == item.key && Stage(op.action) == 1
    ensures item.key == item.key ==> op.identity.plan == plan.id
  {
  }

  // ----- the whole list -----

  lemma {:induction false} SupersessionsSequenced(plan: Plan, snap: Snapshot, identities: seq<Identity>, i: nat)
    requires i <= |identities| && Lists(identities, snap.packages.Keys) && Ascending(identities, IdentityLe)
    ensures Sequenced(SupersedeOps(plan, snap, identities[..i]))
  {
    hide TextLe, SupersedeOps;
    if i == 0 {
      NothingSuperseded(plan, snap, identities);
    } else {
      SupersessionsSequenced(plan, snap, identities, i - 1);
      SupersedeOpsStep(plan, snap, identities, i - 1);
      var done, identity := SupersedeOps(plan, snap, identities[..i - 1]), identities[i - 1];
      if Removed(plan, snap, identity) {
        forall op | op in done ensures Precedes(op, SupersedeOp(plan, snap, identity)) {
          SupersessionsExact(plan, snap, identities[..i - 1], op);
          var j :| 0 <= j < i - 1 && identities[..i - 1][j] == op.identity;
          assert IdentityLe(identities[j], identities[i - 1]) && identities[j] != identities[i - 1];
        }
        SequencedAppend(done, [SupersedeOp(plan, snap, identity)]);
      } else {
        assert done + [] == done;
      }
    }
  }

  lemma NothingSuperseded(plan: Plan, snap: Snapshot, identities: seq<Identity>)
    ensures Sequenced(SupersedeOps(plan, snap, identities[..0]))
  {
  }

  lemma SortedUnique(items: seq<Item>)
    requires UniqueKeys(items)
    ensures UniqueKeys(SortItems(items)) && AscendingKeys(SortItems(items))
  {
    SortKeepsUnique(items);
    SortAscending(items);
  }

  lemma StageOf(plan: Plan, snap: Snapshot)
    ensures var items := SortItems(plan.items);
            && (forall op :: op in CreateOps(plan, snap, items) ==> Stage(op.action) == 0)
            && (forall op :: op in NodesOps(plan, snap, items) ==> Stage(op.action) == 1)
    ensures forall op :: op in SupersedeOps(plan, snap, SortedIdentities(snap.packages.Keys)) ==> Stage(op.action) == 2
  {
    hide CreateOps, NodesOps, NodeOps, SupersedeOps, SortItems, SortedIdentities, ForItem, Labelled;
    var items := SortItems(plan.items);
    CreateOpsMembers(plan, snap, items);
    SupersedeOpsMembers(plan, snap, SortedIdentities(snap.packages.Keys));
    forall op | op in NodesOps(plan, snap, items) ensures Stage(op.action) == 1 {
      NodesOpsMembers(plan, snap, items, op);
      var item :| item in items && op in NodeOps(plan, snap, item);
      NodeExact(plan, snap, item, op);
    }
  }

  /**
    Every operation of a diff precedes all later ones: creations by key, then node by node in
    key order with each node's steps in their order and its relations sorted, then supersessions
    by key, then the audit record.
   */
  lemma DiffSequenced(plan: Plan, snap: Snapshot)
    requires UniqueKeys(plan.items)
    ensures Sequenced(Diff(plan, snap))
  {
    hide CreateOps, NodesOps, SupersedeOps, SortItems, Sequenced, Before, TextLess;
    var items, identities := SortItems(plan.items), SortedIdentities(snap.packages.Keys);
    SortedUnique(plan.items);
    assert items[..|items|] == items && identities[..|identities|] == identities;
    CreationsSequenced(plan, snap, items, |items|);
    NodesSequenced(plan, snap, items, |items|);
    SupersessionsSequenced(plan, snap, identities, |identities|);
    StageOf(plan, snap);
    var creates, nodes, removals := CreateOps(plan, snap, items), NodesOps(plan, snap, items), SupersedeOps(plan, snap, identities);
    SequencedAppend(creates, nodes);
    SequencedAppend(creates + nodes, removals);
    var ops := Mutations(plan, snap);
    if ops == [] {
      NothingAtAll();
    } else {
      AuditAlone(plan, snap, ops);
      SequencedAppend(ops, [AuditOp(plan, snap, ops)]);
    }
  }

  lemma NothingAtAll()
    ensures Sequenced([])
  {
  }

  lemma AuditAlone(plan: Plan, snap: Snapshot, ops: seq<Operation>)
    ensures Sequenced([AuditOp(plan, snap, ops)]) && Stage(AuditOp(plan, snap, ops).action) == 3
  {
  }

  lemma PrecedesAsymmetric(a: Operation, b: Operation)
    requires Precedes(a, b)
    ensures !Precedes(b, a) && a != b
  {
    hide TextLe;
    TextOrder();
  }

  lemma SequencedRest(ops: seq<Operation>)
    requires Sequenced(ops) && ops != []
    ensures Sequenced(ops[1..]) && forall op :: op in ops[1..] <==> op in ops && op != ops[0]
  {
    hide Precedes;
    assert ops == [ops[0]] + ops[1..];
    forall i | 0 <= i < |ops| - 1 ensures ops[1..][i] != ops[0] {
      PrecedesAsymmetric(ops[0], ops[i + 1]);
    }
  }

  lemma FirstMember(ops: seq<Operation>)
    requires ops != []
    ensures exists op :: op in ops
  {
    assert ops[0] in ops;
  }

  /** A sequenced list is determined by its members. */
  lemma {:induction false} SequenceDetermined(a: seq<Operation>, b: seq<Operation>)
    requires Sequenced(a) && Sequenced(b) && forall op :: op in a <==> op in b
    ensures a == b
    decreases |a|
  {
    hide Precedes;
    if a == [] {
      if b != [] {
        FirstMember(b);
        assert false;
      }
    } else {
      assert a[0] in b;
      if a[0] != b[0] {
        assert b[0] in b && b[0] in a;
        var i :| 0 <= i < |a| && a[i] == b[0];
        var j :| 0 <= j < |b| && b[j] == a[0];
        PrecedesAsymmetric(a[0], b[0]);
        assert false;
      }
      SequencedRest(a);
      SequencedRest(b);
      SequenceDetermined(a[1..], b[1..]);
      assert a == [a[0]] + a[1..] && b == [b[0]] + b[1..];
    }
  }

  /** There is no other list of the operations a plan calls for in that order. */
  lemma DiffDetermined(plan: Plan, snap: Snapshot, ops: seq<Operation>)
    requires UniqueKeys(plan.items)
    requires Sequenced(ops) && forall op :: op in ops <==> CalledFor(plan, snap, op)
    ensures ops == Mutations(plan, snap)
    ensures Diff(plan, snap) == if ops == [] then [] else ops + [AuditOp(plan, snap, ops)]
  {
    hide Mutations, CalledFor, Precedes;
    forall op ensures op in Mutations(plan, snap) <==> CalledFor(plan, snap, op) {
      MutationsExact(plan, snap, op);
    }
    DiffSequenced(plan, snap);
    SequencedFront(Mutations(plan, snap), Diff(plan, snap));
    SequenceDetermined(ops, Mutations(plan, snap));
  }

  lemma SequencedFront(front: seq<Operation>, ops: seq<Operation>)
    requires Sequenced(ops) && front <= ops
    ensures Sequenced(front)
  {
    hide Precedes;
    forall i, j | 0 <= i < j < |front| ensures Precedes(front[i], front[j]) {
      assert front[i] == ops[i] && front[j] == ops[j];
    }
  }
}
