/** No two operations of a diff coincide, and a status is changed at most once per identity. */
module DiffOrder {
  import opened Basics
  import opened Ordering
  import opened Backlog
  import opened Operations
  import opened PlanDiff
  import opened DiffSoundness
  import opened DiffTheorems

  /** What holds between an operation and any later one. */
  predicate Follows(earlier: Operation, later: Operation) {
    && (earlier.identity, earlier.action) != (later.identity, later.action)
    && (ChangesStatus(earlier.action) && earlier.identity == later.identity ==>
          !ChangesStatus(later.action) && !later.action.CreateWorkPackage?)
  }

  ghost predicate Pairwise(ops: seq<Operation>) {
    forall i, j :: 0 <= i < j < |ops| ==> Follows(ops[i], ops[j])
  }

  lemma PairwiseAppend(a: seq<Operation>, b: seq<Operation>)
    requires Pairwise(a) && Pairwise(b)
    requires forall x, y | x in a && y in b :: Follows(x, y)
    ensures Pairwise(a + b)
  {
  }

  lemma {:induction false} CreatePairwise(plan: Plan, snap: Snapshot, items: seq<Item>, i: nat)
    requires UniqueKeys(items) && i <= |items|
    ensures Pairwise(CreateOps(plan, snap, items[..i]))
  {
    hide CreateOp;
    if i > 0 {
      CreatePairwise(plan, snap, items, i - 1);
      CreateOpsStep(plan, snap, items, i - 1);
      CreateOpsMembers(plan, snap, items[..i - 1]);
      PrefixUnique(items, i - 1);
      CreateOpsMembers(plan, snap, [items[i - 1]]);
      var last := if IdOf(plan, items[i - 1]) in snap.packages then [] else [CreateOp(plan, snap, items[i - 1])];
      assert [items[i - 1]][..0] == [];
      CreateOpsStep(plan, snap, [items[i - 1]], 0);
      assert [items[i - 1]][..1] == [items[i - 1]];
      PairwiseAppend(CreateOps(plan, snap, items[..i - 1]), last);
    }
  }

  lemma {:induction false} AddPairwise(plan: Plan, snap: Snapshot, item: Item, added: seq<Relation>, virtual: set<Relation>)
    requires Lists(added, Members(added))
    ensures Pairwise(AddOps(plan, snap, item, added, virtual))
    decreases |added|
  {
    if added != [] {
      var earlier, relation := added[..|added| - 1], added[|added| - 1];
      Snoc(added);
      AddPairwise(plan, snap, item, earlier, virtual);
      AddOpsMembers(plan, snap, item, earlier, virtual);
      PairwiseAppend(AddOps(plan, snap, item, earlier, virtual),
                     [RelationOp(plan, snap, item, CreateRelation(relation), virtual + Members(earlier))]);
    }
  }

  lemma {:induction false} RemovePairwise(plan: Plan, snap: Snapshot, item: Item, removed: seq<Relation>, virtual: set<Relation>)
    requires Lists(removed, Members(removed))
    ensures Pairwise(RemoveOps(plan, snap, item, removed, virtual))
    decreases |removed|
  {
    if removed != [] {
      var earlier, relation := removed[..|removed| - 1], removed[|removed| - 1];
      Snoc(removed);
      RemovePairwise(plan, snap, item, earlier, virtual);
      RemoveOpsMembers(plan, snap, item, earlier, virtual);
      PairwiseAppend(RemoveOps(plan, snap, item, earlier, virtual),
                     [RelationOp(plan, snap, item, RemoveManagedRelation(relation), virtual - Members(earlier))]);
    }
  }

  lemma ListsItself(relations: seq<Relation>, members: set<Relation>)
    requires Lists(relations, members)
    ensures Lists(relations, Members(relations))
  {
  }

  lemma NodePairwise(plan: Plan, snap: Snapshot, item: Item)
    ensures Pairwise(NodeOps(plan, snap, item))
    ensures forall op :: op in NodeOps(plan, snap, item) ==>
      && op.identity == IdOf(plan, item)
      && !op.action.CreateWorkPackage? && !op.action.MarkSuperseded? && !op.action.RecordAudit?
  {
    var current, missing := CurrentRelations(Lookup(snap, IdOf(plan, item))), Missing(plan, snap, item);
    var surplus := Surplus(plan, snap, item);
    FieldsPairwise(plan, snap, item);
    hide AddOps, RemoveOps, FieldOps, DesiredRelations;
    ListsItself(missing, DesiredRelations(plan, item) - current);
    ListsItself(surplus, current - DesiredRelations(plan, item));
    AddPairwise(plan, snap, item, missing, current);
    RemovePairwise(plan, snap, item, surplus, current + Members(missing));
    AddOpsMembers(plan, snap, item, missing, current);
    RemoveOpsMembers(plan, snap, item, surplus, current + Members(missing));
    PairwiseAppend(AddOps(plan, snap, item, missing, current),
                   RemoveOps(plan, snap, item, surplus, current + Members(missing)));
    FieldOpsMembers(plan, snap, item);
    PairwiseAppend(FieldOps(plan, snap, item), RelationOps(plan, snap, item));
  }

  lemma FieldsPairwise(plan: Plan, snap: Snapshot, item: Item)
    ensures Pairwise(FieldOps(plan, snap, item))
  {
    hide Managed, Predicted, Existing, ParentChanged;
  }

  lemma {:induction false} NodesPairwise(plan: Plan, snap: Snapshot, items: seq<Item>, i: nat)
    requires UniqueKeys(items) && i <= |items|
    ensures Pairwise(NodesOps(plan, snap, items[..i]))
    ensures forall op :: op in NodesOps(plan, snap, items[..i]) ==>
      && op.identity in Planned(plan, items[..i])
      && !op.action.CreateWorkPackage? && !op.action.MarkSuperseded? && !op.action.RecordAudit?
  {
    hide NodeOps;
    if i > 0 {
      NodesPairwise(plan, snap, items, i - 1);
      NodesOpsStep(plan, snap, items, i - 1);
      NodePairwise(plan, snap, items[i - 1]);
      PrefixUnique(items, i - 1);
      PairwiseAppend(NodesOps(plan, snap, items[..i - 1]), NodeOps(plan, snap, items[i - 1]));
    }
  }

  lemma {:induction false} SupersedePairwise(plan: Plan, snap: Snapshot, identities: seq<Identity>, i: nat)
    requires i <= |identities| && Lists(identities, snap.packages.Keys)
    ensures Pairwise(SupersedeOps(plan, snap, identities[..i]))
  {
    if i > 0 {
      SupersedePairwise(plan, snap, identities, i - 1);
      SupersedeOpsStep(plan, snap, identities, i - 1);
      SupersedeOpsMembers(plan, snap, identities[..i - 1]);
      var last := if Removed(plan, snap, identities[i - 1]) then [SupersedeOp(plan, snap, identities[i - 1])] else [];
      PairwiseAppend(SupersedeOps(plan, snap, identities[..i - 1]), last);
    }
  }

  lemma DiffPairwise(plan: Plan, snap: Snapshot)
    requires UniqueKeys(plan.items)
    ensures Pairwise(Diff(plan, snap))
  {
    hide CreateOps, NodesOps, SupersedeOps, SortItems;
    var items, identities := SortItems(plan.items), SortedIdentities(snap.packages.Keys);
    SortKeepsUnique(plan.items);
    assert items[..|items|] == items && identities[..|identities|] == identities;
    CreatePairwise(plan, snap, items, |items|);
    NodesPairwise(plan, snap, items, |items|);
    SupersedePairwise(plan, snap, identities, |identities|);
    CreateOpsMembers(plan, snap, items);
    SupersedeOpsMembers(plan, snap, identities);
    var creates, nodes, removals := CreateOps(plan, snap, items), NodesOps(plan, snap, items), SupersedeOps(plan, snap, identities);
    PairwiseAppend(creates, nodes);
    forall x, y | x in creates + nodes && y in removals ensures Follows(x, y) {
      KeyPlanned(plan, x.identity);
      assert Planned(plan, items) == Planned(plan, plan.items);
    }
    PairwiseAppend(creates + nodes, removals);
    var ops := Mutations(plan, snap);
    if ops != [] {
      PairwiseAppend(ops, [AuditOp(plan, snap, ops)]);
    }
  }

  ghost predicate DistinctIds(ops: seq<Operation>) {
    forall i, j :: 0 <= i < j < |ops| ==> ops[i].id != ops[j].id
  }

  /** Operation identifiers are digests of their content, so no two in a diff share a journal row. */
  lemma DiffDistinctIds(plan: Plan, snap: Snapshot)
    requires UniqueKeys(plan.items)
    ensures DistinctIds(Diff(plan, snap))
  {
    hide Diff;
    DiffPairwise(plan, snap);
    IdsCarryContent(plan, snap);
    var ops := Diff(plan, snap);
    forall i, j | 0 <= i < j < |ops| ensures ops[i].id != ops[j].id {
      assert Follows(ops[i], ops[j]) && ops[i] in ops && ops[j] in ops;
    }
  }

  lemma IdsCarryContent(plan: Plan, snap: Snapshot)
    requires UniqueKeys(plan.items)
    ensures forall op :: op in Diff(plan, snap) ==> Named(op)
  {
    hide CreateOps, NodesOps, SupersedeOps, SortItems, SortedIdentities;
    var items := SortItems(plan.items);
    CreateOpsMembers(plan, snap, items);
    SupersedeOpsMembers(plan, snap, SortedIdentities(snap.packages.Keys));
    forall op | op in NodesOps(plan, snap, items) ensures Named(op) {
      NodesOpsMembers(plan, snap, items, op);
      var item :| item in items && op in NodeOps(plan, snap, item);
      FieldOpsMembers(plan, snap, item);
      RelationOpsMembers(plan, snap, item);
    }
  }
}
