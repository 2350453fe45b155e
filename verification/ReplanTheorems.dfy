/** The main results about partial replans. */
module ReplanTheorems {
  import opened Basics
  import opened Ordering
  import opened Backlog
  import opened Ownership
  import opened Replan
  import opened Operations
  import opened PlanDiff
  import opened DiffSoundness
  import opened DiffTheorems

  /** One accepted replan of `prior`, published under `baseCommit`. */
  ghost predicate Accepted(prior: Plan, candidate: Plan, baseCommit: string, selected: seq<string>, affected: seq<string>) {
    && UniqueKeys(prior.items) && UniqueKeys(candidate.items)
    && ValidateCandidate(prior, candidate, baseCommit, selected, affected).Ok?
  }

  function Protected(prior: Plan, affected: seq<string>): set<string> {
    Keys(prior.items) - Members(affected)
  }

  // ----- provenance -----

  lemma EffectiveCommit(prior: Plan, baseCommit: string, key: string)
    ensures EffectiveBinding(prior, Some(baseCommit), key).commit.Some?
  {
  }

  /** The binding a replan carries for a node among `known`. */
  function Retained(prior: Plan, baseCommit: string, known: set<string>, affected: set<string>, key: string)
    : Option<NodeBinding>
  {
    if key in known && key !in affected then
      var owned := EffectiveBinding(prior, Some(baseCommit), key);
      Some(NodeBinding(key, owned.version, owned.commit.value))
    else None
  }

  lemma {:induction false} RetainedFound(prior: Plan, baseCommit: string, items: seq<Item>, affected: set<string>, key: string)
    requires UniqueKeys(items)
    ensures FindBinding(RetainedBindings(prior, baseCommit, items, affected), key)
         == Retained(prior, baseCommit, Keys(items), affected, key)
    decreases |items|
  {
    if items == [] {
      assert Keys(items) == {};
    } else {
      hide EffectiveBinding, Retained;
      var front, last := items[..|items| - 1], items[|items| - 1];
      assert items == front + [last];
      RetainedFound(prior, baseCommit, front, affected, key);
      PrefixUnique(items, |front|);
      assert items[..|items|] == items;
      RetainedStep(prior, baseCommit, front, last, affected, key);
    }
  }

  /** The binding of one more item is found last. */
  lemma RetainedStep(prior: Plan, baseCommit: string, front: seq<Item>, last: Item, affected: set<string>, key: string)
    requires forall item :: item in front ==> item.key != last.key
    requires FindBinding(RetainedBindings(prior, baseCommit, front, affected), key)
          == Retained(prior, baseCommit, Keys(front), affected, key)
    ensures FindBinding(RetainedBindings(prior, baseCommit, front + [last], affected), key)
         == Retained(prior, baseCommit, Keys(front + [last]), affected, key)
  {
    hide EffectiveBinding;
    EffectiveCommit(prior, baseCommit, last.key);
    var owned := EffectiveBinding(prior, Some(baseCommit), last.key);
    var binding := if last.key in affected then [] else [NodeBinding(last.key, owned.version, owned.commit.value)];
    FindAppend(RetainedBindings(prior, baseCommit, front, affected), binding, key);
    assert (front + [last])[..|front|] == front;
    assert Keys(front + [last]) == Keys(front) + {last.key};
  }

  lemma {:induction false} FindAppend(a: seq<NodeBinding>, b: seq<NodeBinding>, key: string)
    ensures FindBinding(a + b, key) == if FindBinding(a, key).Some? then FindBinding(a, key) else FindBinding(b, key)
    decreases |a|
  {
    if a == [] {
      assert a + b == b;
    } else {
      assert (a + b)[1..] == a[1..] + b;
      FindAppend(a[1..], b, key);
    }
  }

  /** A replan keeps the owner of a protected node and takes over every other node. */
  lemma ReplanProvenance(prior: Plan, candidate: Plan, baseCommit: string, selected: seq<string>, affected: seq<string>,
                         approved: Option<string>, key: string)
    requires UniqueKeys(prior.items)
    requires candidate.replan == Some(ScopeFor(prior, baseCommit, selected, affected))
    ensures EffectiveBinding(candidate, approved, key)
         == if key in Protected(prior, affected) then EffectiveBinding(prior, Some(baseCommit), key)
            else Provenance(candidate.version, approved)
  {
    RetainedFound(prior, baseCommit, prior.items, Members(affected), key);
  }

  /** A replan of the plan before it: what the operator selected and the commit that plan was published under. */
  datatype Revision = Revision(plan: Plan, baseCommit: string, selected: seq<string>, affected: seq<string>)

  ghost predicate Chain(first: Plan, revisions: seq<Revision>) {
    && first.replan.None? && UniqueKeys(first.items)
    && forall i :: 0 <= i < |revisions| ==>
         var step := revisions[i];
         Accepted(PlanAt(first, revisions, i), step.plan, step.baseCommit, step.selected, step.affected)
  }

  function PlanAt(first: Plan, revisions: seq<Revision>, i: nat): Plan
    requires i <= |revisions|
  {
    if i == 0 then first else revisions[i - 1].plan
  }

  /** The commit plan `i` of the chain was published under; `last` for the newest one. */
  function CommitAt(revisions: seq<Revision>, last: string, i: nat): string
    requires i <= |revisions|
  {
    if i < |revisions| then revisions[i].baseCommit else last
  }

  /** Revision `i` affected or introduced the node. */
  predicate Touches(first: Plan, revisions: seq<Revision>, i: nat, key: string)
    requires i <= |revisions|
  {
    i == 0 || key !in Protected(PlanAt(first, revisions, i - 1), revisions[i - 1].affected)
  }

  function LatestTouch(first: Plan, revisions: seq<Revision>, i: nat, key: string): (t: nat)
    requires i <= |revisions|
    ensures t <= i && Touches(first, revisions, t, key)
    ensures forall j :: t < j <= i ==> !Touches(first, revisions, j, key)
  {
    if Touches(first, revisions, i, key) then i else LatestTouch(first, revisions, i - 1, key)
  }

  /** Over a chain of replans, a node is owned by the latest plan that affected or introduced it. */
  lemma {:induction false} ChainedProvenance(first: Plan, revisions: seq<Revision>, last: string, i: nat, key: string)
    requires Chain(first, revisions) && i <= |revisions|
    ensures var t := LatestTouch(first, revisions, i, key);
            EffectiveBinding(PlanAt(first, revisions, i), Some(CommitAt(revisions, last, i)), key)
            == Provenance(PlanAt(first, revisions, t).version, Some(CommitAt(revisions, last, t)))
    decreases i
  {
    hide Accepted, EffectiveBinding, UniqueKeys, ScopeFor;
    if i == 0 {
      FirstProvenance(first, CommitAt(revisions, last, 0), key);
    } else {
      var step := revisions[i - 1];
      assert Accepted(PlanAt(first, revisions, i - 1), step.plan, step.baseCommit, step.selected, step.affected);
      AcceptedScope(PlanAt(first, revisions, i - 1), step.plan, step.baseCommit, step.selected, step.affected);
      ReplanProvenance(PlanAt(first, revisions, i - 1), step.plan, step.baseCommit, step.selected, step.affected,
                       Some(CommitAt(revisions, last, i)), key);
      ChainedProvenance(first, revisions, last, i - 1, key);
    }
  }

  lemma FirstProvenance(first: Plan, commit: string, key: string)
    requires first.replan.None?
    ensures EffectiveBinding(first, Some(commit), key) == Provenance(first.version, Some(commit))
  {
  }

  lemma AcceptedScope(prior: Plan, candidate: Plan, baseCommit: string, selected: seq<string>, affected: seq<string>)
    requires Accepted(prior, candidate, baseCommit, selected, affected)
    ensures UniqueKeys(prior.items) && UniqueKeys(candidate.items)
    ensures candidate.id == prior.id && candidate.version > prior.version
    ensures candidate.replan == Some(ScopeFor(prior, baseCommit, selected, affected))
    ensures Crossing(prior.items, Protected(prior, affected)) == Crossing(candidate.items, Protected(prior, affected))
  {
    hide Owner, ScopeFor, Crossing, ByKey;
  }

  lemma ProtectedItemKept(prior: Plan, candidate: Plan, baseCommit: string, selected: seq<string>, affected: seq<string>, item: Item)
    requires Accepted(prior, candidate, baseCommit, selected, affected)
    requires item in prior.items && item.key in Protected(prior, affected)
    ensures item in candidate.items && item.key in Keys(candidate.items)
  {
    hide Owner, ScopeFor, Crossing, UniqueKeys;
    ByKeyUnique(prior.items, item);
    assert ByKey(candidate.items)[item.key] == item;
  }

  // ----- silence outside the boundary -----

  /** A crossing `related_to` edge is a declaration of that pair somewhere in the plan. */
  lemma CrossingRelated(items: seq<Item>, protected: set<string>, pair: (string, string))
    requires Edge(RelatedEdge, pair.0, pair.1) in Crossing(items, protected)
    ensures pair in RelatedPairs(items)
  {
    hide Crosses;
    var edge := Edge(RelatedEdge, pair.0, pair.1);
    var item :| item in items && edge in EdgesOf(item, Keys(items), protected);
    assert edge in RelatedEdges(item.key, item.relatedTo, Keys(items), protected);
    var target :| target in item.relatedTo
      && edge == Edge(RelatedEdge, OrderedPair(item.key, target).0, OrderedPair(item.key, target).1);
  }

  lemma RelatedCrosses(items: seq<Item>, protected: set<string>, item: Item, target: string)
    requires item in items && target in item.relatedTo && Crosses(item.key, target, Keys(items), protected)
    ensures var pair := OrderedPair(item.key, target); Edge(RelatedEdge, pair.0, pair.1) in Crossing(items, protected)
  {
    hide Crosses, OrderedPair;
    var pair := OrderedPair(item.key, target);
    assert Edge(RelatedEdge, pair.0, pair.1) in RelatedEdges(item.key, item.relatedTo, Keys(items), protected);
    assert Edge(RelatedEdge, pair.0, pair.1) in EdgesOf(item, Keys(items), protected);
  }

  /** A `related_to` pair with a protected end is declared in both plans or in neither. */
  lemma RelatedPairKept(items: seq<Item>, others: seq<Item>, protected: set<string>, pair: (string, string))
    requires forall item: Item | item.key in protected :: item in items <==> item in others
    requires protected <= Keys(items) && protected <= Keys(others)
    requires Crossing(items, protected) == Crossing(others, protected)
    requires pair.0 in protected && pair in RelatedPairs(items)
    ensures pair in RelatedPairs(others)
  {
    hide Crossing, Keys, TextLe;
    var item, target :| item in items && target in item.relatedTo && OrderedPair(item.key, target) == pair;
    if item.key in protected {
      assert item in others;
    } else {
      // The declaring node may change, but the pair crosses the boundary.
      assert target == pair.0;
      RelatedCrosses(items, protected, item, target);
      CrossingRelated(others, protected, pair);
    }
  }

  lemma SameItems(items: seq<Item>, others: seq<Item>, protected: set<string>)
    requires UniqueKeys(items) && UniqueKeys(others) && protected <= Keys(items)
    requires forall item | item in items && item.key in protected :: item in others
    ensures forall item: Item | item.key in protected :: item in items <==> item in others
    ensures protected <= Keys(others)
  {
    forall item: Item | item.key in protected && item in others ensures item in items {
      var mine :| mine in items && mine.key == item.key;
      ByKeyUnique(others, mine);
      ByKeyUnique(others, item);
    }
    forall key | key in protected ensures key in Keys(others) {
      var mine :| mine in items && mine.key == key;
    }
  }

  lemma DesiredKept(prior: Plan, candidate: Plan, baseCommit: string, selected: seq<string>, affected: seq<string>, item: Item)
    requires Accepted(prior, candidate, baseCommit, selected, affected)
    requires item in prior.items && item.key in Protected(prior, affected)
    ensures DesiredRelations(candidate, item) == DesiredRelations(prior, item)
  {
    var protected := Protected(prior, affected);
    AcceptedScope(prior, candidate, baseCommit, selected, affected);
    forall other | other in prior.items && other.key in protected ensures other in candidate.items {
      ProtectedItemKept(prior, candidate, baseCommit, selected, affected, other);
    }
    hide Accepted, UniqueKeys, Crossing, RelatedPairs;
    SameItems(prior.items, candidate.items, protected);
    forall pair: (string, string) | pair.0 == item.key
      ensures pair in RelatedPairs(prior.items) <==> pair in RelatedPairs(candidate.items)
    {
      if pair in RelatedPairs(prior.items) { RelatedPairKept(prior.items, candidate.items, protected, pair); }
      if pair in RelatedPairs(candidate.items) { RelatedPairKept(candidate.items, prior.items, protected, pair); }
    }
  }

  /** A protected node that shows the base plan shows the accepted candidate too. */
  lemma ProtectedStaysConverged(prior: Plan, candidate: Plan, baseCommit: string, selected: seq<string>, affected: seq<string>,
                                commit: string, packages: map<Identity, Package>, item: Item)
    requires Accepted(prior, candidate, baseCommit, selected, affected)
    requires item in prior.items && item.key in Protected(prior, affected)
    requires NodeConverged(WithApprovedCommit(prior, baseCommit), item, packages)
    ensures NodeConverged(WithApprovedCommit(candidate, commit), item, packages)
  {
    AcceptedScope(prior, candidate, baseCommit, selected, affected);
    DesiredKept(prior, candidate, baseCommit, selected, affected, item);
    hide Accepted, UniqueKeys, Crossing, RelatedPairs, ScopeFor;
    ReplanProvenance(prior, candidate, baseCommit, selected, affected, Some(commit), item.key);
  }

  /**
    An accepted replan is silent outside its boundary: against a store that shows the approved
    base, the diff of the candidate holds no mutation of any protected node.
   */
  lemma SilentOutsideBoundary(prior: Plan, candidate: Plan, baseCommit: string, selected: seq<string>, affected: seq<string>,
                              commit: string, snap: Snapshot, key: string)
    requires Accepted(prior, candidate, baseCommit, selected, affected)
    requires Converged(WithApprovedCommit(prior, baseCommit), snap.packages)
    requires key in Protected(prior, affected)
    ensures forall op | op in Diff(WithApprovedCommit(candidate, commit), snap) ::
      op.identity == Identity(prior.id, key) ==> op.action.RecordAudit?
  {
    var plan, base := WithApprovedCommit(candidate, commit), WithApprovedCommit(prior, baseCommit);
    var item :| item in prior.items && item.key == key;
    AcceptedScope(prior, candidate, baseCommit, selected, affected);
    ProtectedItemKept(prior, candidate, baseCommit, selected, affected, item);
    assert NodeConverged(base, item, snap.packages);
    ProtectedStaysConverged(prior, candidate, baseCommit, selected, affected, commit, snap.packages, item);
    NodeSilent(plan, snap, item);
  }

  lemma NodeSilent(plan: Plan, snap: Snapshot, item: Item)
    requires UniqueKeys(plan.items) && item in plan.items && NodeConverged(plan, item, snap.packages)
    ensures forall op | op in Diff(plan, snap) :: op.identity == IdOf(plan, item) ==> op.action.RecordAudit?
  {
    hide CreateOps, NodesOps, SupersedeOps, NodeOps, SortItems, SortedIdentities, NodeConverged, UniqueKeys, ByKey;
    NodeConvergedPresent(plan, snap, item);
    NodeOpsEmpty(plan, snap, item);
    KeyPlanned(plan, IdOf(plan, item));
    var items, identities := SortItems(plan.items), SortedIdentities(snap.packages.Keys);
    SortKeepsUnique(plan.items);
    CreateOpsMembers(plan, snap, items);
    SupersedeOpsMembers(plan, snap, identities);
    forall op | op in NodesOps(plan, snap, items) ensures op.identity != IdOf(plan, item) {
      NodesOpsMembers(plan, snap, items, op);
      var other :| other in items && op in NodeOps(plan, snap, other);
      NodeOpsIdentity(plan, snap, other);
      if other.key == item.key {
        ByKeyUnique(plan.items, other);
        ByKeyUnique(plan.items, item);
      }
    }
  }

  lemma NodeConvergedPresent(plan: Plan, snap: Snapshot, item: Item)
    requires NodeConverged(plan, item, snap.packages)
    ensures IdOf(plan, item) in snap.packages
  {
  }

  lemma NodeOpsIdentity(plan: Plan, snap: Snapshot, item: Item)
    ensures forall op :: op in NodeOps(plan, snap, item) ==> op.identity == IdOf(plan, item)
  {
    hide FieldOps, RelationOps;
    FieldOpsMembers(plan, snap, item);
    RelationOpsMembers(plan, snap, item);
  }

  // ----- relations across the boundary -----

  function DeclaredBy(item: Item, kind: EdgeKind): seq<string> {
    match kind
    case ParentEdge => if item.parent.Some? then [item.parent.value] else []
    case BlockedByEdge => item.blockedBy
    case SequenceEdge => item.sequenceAfter
    case RequiredEdge => item.decisionRequired
    case DecisionEdge => item.decisions
    case MutexEdge => item.mutex
    case RelatedEdge => item.relatedTo
  }

  ghost predicate Declares(items: seq<Item>, kind: EdgeKind, source: string, target: string) {
    target in Keys(items) && exists item :: item in items && item.key == source && target in DeclaredBy(item, kind)
  }

  lemma CrossingExact(items: seq<Item>, protected: set<string>, kind: EdgeKind, source: string, target: string)
    requires kind != RelatedEdge
    ensures Edge(kind, source, target) in Crossing(items, protected) <==>
      Declares(items, kind, source, target) && ((source in protected) != (target in protected))
  {
    hide EdgesOf, Crosses, DeclaredBy;
    var edge := Edge(kind, source, target);
    forall item ensures edge in EdgesOf(item, Keys(items), protected) <==>
      item.key == source && target in DeclaredBy(item, kind) && Crosses(source, target, Keys(items), protected)
    {
      EdgesOfExact(item, Keys(items), protected, kind, source, target);
    }
    CrossesExact(source, target, Keys(items), protected);
  }

  lemma CrossesExact(source: string, target: string, known: set<string>, protected: set<string>)
    ensures Crosses(source, target, known, protected) <==> target in known && ((source in protected) != (target in protected))
  {
  }

  lemma EdgesOfExact(item: Item, known: set<string>, protected: set<string>, kind: EdgeKind, source: string, target: string)
    requires kind != RelatedEdge
    ensures Edge(kind, source, target) in EdgesOf(item, known, protected) <==>
      item.key == source && target in DeclaredBy(item, kind) && Crosses(source, target, known, protected)
  {
    hide Crosses, RelatedEdges;
    NotRelated(item, known, protected, Edge(kind, source, target));
  }

  lemma NotRelated(item: Item, known: set<string>, protected: set<string>, edge: Edge)
    requires edge.kind != RelatedEdge
    ensures edge !in RelatedEdges(item.key, item.relatedTo, known, protected)
  {
  }

  /** An accepted candidate declares the same parents and directed relations across the boundary. */
  lemma BoundaryRelationsKept(prior: Plan, candidate: Plan, baseCommit: string, selected: seq<string>, affected: seq<string>,
                              kind: EdgeKind, source: string, target: string)
    requires Accepted(prior, candidate, baseCommit, selected, affected) && kind != RelatedEdge
    requires (source in Protected(prior, affected)) != (target in Protected(prior, affected))
    ensures Declares(prior.items, kind, source, target) <==> Declares(candidate.items, kind, source, target)
  {
    AcceptedScope(prior, candidate, baseCommit, selected, affected);
    hide Accepted, Crossing, Declares;
    CrossingExact(prior.items, Protected(prior, affected), kind, source, target);
    CrossingExact(candidate.items, Protected(prior, affected), kind, source, target);
  }

  // ----- ownership -----

  /** A protected node has no known parent in the candidate that it did not have in the base. */
  lemma ProtectedParentKept(prior: Plan, candidate: Plan, baseCommit: string, selected: seq<string>, affected: seq<string>,
                            key: string)
    requires Accepted(prior, candidate, baseCommit, selected, affected) && key in Protected(prior, affected)
    ensures var parent := KnownParent(ByKey(candidate.items), key);
      parent.Some? ==> KnownParent(ByKey(prior.items), key) == parent
  {
    AcceptedOwnership(prior, candidate, baseCommit, selected, affected);
    hide Accepted, Owner, Crosses, UniqueKeys;
    var before, after := ByKey(prior.items), ByKey(candidate.items);
    if KnownParent(after, key).Some? {
      var parent := KnownParent(after, key).value;
      assert after[key] in candidate.items && after[key].key == key;
      assert parent in DeclaredBy(after[key], ParentEdge);
      assert Declares(candidate.items, ParentEdge, key, parent);
      if parent !in before {
        BoundaryRelationsKept(prior, candidate, baseCommit, selected, affected, ParentEdge, key, parent);
      }
    }
  }

  /** A protected node never climbs to a selected root in an accepted candidate. */
  lemma {:induction false} ProtectedUnrooted(before: Items, after: Items, roots: set<string>, protected: set<string>,
                                             key: string, n: nat)
    requires roots !! protected && protected == before.Keys - Owned(before, roots)
    requires forall k | k in protected && KnownParent(after, k).Some? :: KnownParent(before, k) == KnownParent(after, k)
    requires key in protected
    ensures !RootedIn(after, roots, key, n)
    decreases n
  {
    hide Owner;
    if n > 0 && KnownParent(after, key).Some? {
      OwnerStep(before, roots, key);
      ProtectedUnrooted(before, after, roots, protected, KnownParent(after, key).value, n - 1);
    }
  }

  /** The facts of acceptance that concern ownership. */
  lemma AcceptedOwnership(prior: Plan, candidate: Plan, baseCommit: string, selected: seq<string>, affected: seq<string>)
    requires Accepted(prior, candidate, baseCommit, selected, affected)
    ensures var roots, before, after := Members(selected), ByKey(prior.items), ByKey(candidate.items);
            && roots <= Members(affected) && roots <= after.Keys && roots <= before.Keys
            && (forall k | k in Protected(prior, affected) :: k in after && after[k] == before[k])
            && (forall k | k in after && k !in Protected(prior, affected) && k !in roots :: Owner(k, after, roots).Some?)
            && (forall k | k in Members(affected) && k in before && k in after && k !in roots ::
                  Owner(k, after, roots) == Owner(k, before, roots))
  {
    hide Owner, ScopeFor, Crossing, UniqueKeys;
  }

  /**
    When the affected set is the descendant closure of the roots, an accepted candidate's own
    closure is exactly its affected and new nodes, and no surviving node changed its owner.
   */
  lemma OwnershipPartition(prior: Plan, candidate: Plan, baseCommit: string, selected: seq<string>, affected: seq<string>)
    requires Accepted(prior, candidate, baseCommit, selected, affected)
    requires Members(affected) == Owned(ByKey(prior.items), Members(selected))
    ensures var roots, after := Members(selected), ByKey(candidate.items);
            && Owned(after, roots) == Keys(candidate.items) - Protected(prior, affected)
            && (forall root | root in roots :: Owner(root, after, roots) == Some(root))
            && (forall key | key in Owned(after, roots) && key in Keys(prior.items) ::
                  Owner(key, after, roots) == Owner(key, ByKey(prior.items), roots))
  {
    var roots, before, after := Members(selected), ByKey(prior.items), ByKey(candidate.items);
    var protected := Protected(prior, affected);
    AcceptedOwnership(prior, candidate, baseCommit, selected, affected);
    hide Accepted, Owner, UniqueKeys;
    forall root | root in roots
      ensures Owner(root, after, roots) == Some(root) && Owner(root, before, roots) == Some(root)
    {
      RootOwnsItself(after, roots, root);
      RootOwnsItself(before, roots, root);
    }
    forall key | key in protected && KnownParent(after, key).Some? ensures KnownParent(before, key) == KnownParent(after, key) {
      ProtectedParentKept(prior, candidate, baseCommit, selected, affected, key);
    }
    forall key | key in protected ensures Owner(key, after, roots).None? {
      OwnerExact(after, roots, key);
      if n: nat :| RootedIn(after, roots, key, n) {
        ProtectedUnrooted(before, after, roots, protected, key, n);
      }
    }
  }

  lemma RootOwnsItself(items: Items, roots: set<string>, root: string)
    requires root in roots
    ensures Owner(root, items, roots) == Some(root)
  {
  }

  // ----- applying the boundary -----

  lemma {:induction false} OverlayMembers(items: seq<Item>, affected: set<string>, proposed: map<string, Item>, item: Item)
    ensures item in Overlay(items, affected, proposed) <==>
      exists mine :: mine in items && (if mine.key in affected then mine.key in proposed && item == proposed[mine.key]
                                       else item == mine)
    decreases |items|
  {
    if items != [] {
      OverlayMembers(items[..|items| - 1], affected, proposed, item);
      assert items == items[..|items| - 1] + [items[|items| - 1]];
    }
  }

  lemma {:induction false} IntroducedMembers(items: seq<Item>, known: set<string>, item: Item)
    ensures item in Introduced(items, known) <==> item in items && item.key !in known
    decreases |items|
  {
    if items != [] {
      IntroducedMembers(items[..|items| - 1], known, item);
      assert items == items[..|items| - 1] + [items[|items| - 1]];
    }
  }

  /** The bounded plan takes protected nodes from the base and every other node as proposed. */
  lemma BoundedMembers(prior: Plan, proposed: Plan, baseCommit: string, selected: seq<string>, affected: seq<string>, item: Item)
    requires UniqueKeys(prior.items) && UniqueKeys(proposed.items)
    ensures item in Bounded(prior, proposed, baseCommit, selected, affected).items <==>
      if item.key in Protected(prior, affected) then item in prior.items else item in proposed.items
  {
    hide UniqueKeys, ScopeFor;
    var byKey := ByKey(proposed.items);
    OverlayMembers(prior.items, Members(affected), byKey, item);
    IntroducedMembers(proposed.items, Keys(prior.items), item);
    if item in proposed.items {
      ByKeyUnique(proposed.items, item);
      if item.key in Keys(prior.items) {
        var mine :| mine in prior.items && mine.key == item.key;
      }
    }
  }

  lemma {:induction false} OverlayUnique(items: seq<Item>, affected: set<string>, proposed: map<string, Item>)
    requires UniqueKeys(items) && forall key | key in proposed :: proposed[key].key == key
    ensures UniqueKeys(Overlay(items, affected, proposed))
    ensures forall item :: item in Overlay(items, affected, proposed) ==> item.key in Keys(items)
    decreases |items|
  {
    if items != [] {
      var front, last := items[..|items| - 1], items[|items| - 1];
      OverlayUnique(front, affected, proposed);
      PrefixUnique(items, |front|);
      assert items[..|items|] == items;
      var earlier := Overlay(front, affected, proposed);
      forall i | 0 <= i < |earlier| ensures earlier[i].key != last.key {
        assert earlier[i] in earlier;
      }
    }
  }

  lemma {:induction false} IntroducedUnique(items: seq<Item>, known: set<string>)
    requires UniqueKeys(items)
    ensures UniqueKeys(Introduced(items, known))
    decreases |items|
  {
    if items != [] {
      var front, last := items[..|items| - 1], items[|items| - 1];
      IntroducedUnique(front, known);
      PrefixUnique(items, |front|);
      var earlier := Introduced(front, known);
      forall i | 0 <= i < |earlier| ensures earlier[i].key != last.key {
        IntroducedMembers(front, known, earlier[i]);
      }
    }
  }

  lemma BoundedUnique(prior: Plan, proposed: Plan, baseCommit: string, selected: seq<string>, affected: seq<string>)
    requires UniqueKeys(prior.items) && UniqueKeys(proposed.items)
    ensures UniqueKeys(Bounded(prior, proposed, baseCommit, selected, affected).items)
  {
    hide Overlay, Introduced, ScopeFor;
    var kept := Overlay(prior.items, Members(affected), ByKey(proposed.items));
    var added := Introduced(proposed.items, Keys(prior.items));
    OverlayUnique(prior.items, Members(affected), ByKey(proposed.items));
    IntroducedUnique(proposed.items, Keys(prior.items));
    forall i, j | 0 <= i < |kept| && 0 <= j < |added| ensures kept[i].key != added[j].key {
      assert kept[i] in kept;
      IntroducedMembers(proposed.items, Keys(prior.items), added[j]);
    }
  }

  /** Overlaying the boundary changes nothing in a candidate that respects it already. */
  lemma BoundaryIdempotent(prior: Plan, proposed: Plan, baseCommit: string, selected: seq<string>, affected: seq<string>)
    requires Accepted(prior, proposed, baseCommit, selected, affected)
    ensures var bounded := Bounded(prior, proposed, baseCommit, selected, affected);
            && Accepted(prior, bounded, baseCommit, selected, affected)
            && bounded == proposed.(items := bounded.items)
            && forall item :: item in bounded.items <==> item in proposed.items
  {
    var bounded := Bounded(prior, proposed, baseCommit, selected, affected);
    AcceptedScope(prior, proposed, baseCommit, selected, affected);
    BoundedUnique(prior, proposed, baseCommit, selected, affected);
    forall item ensures item in bounded.items <==> item in proposed.items {
      BoundedMembers(prior, proposed, baseCommit, selected, affected, item);
      if item.key in Protected(prior, affected) {
        ProtectedSame(prior, proposed, baseCommit, selected, affected, item);
      }
    }
    SameVerdict(prior, proposed, bounded, baseCommit, selected, affected);
  }

  lemma ProtectedSame(prior: Plan, candidate: Plan, baseCommit: string, selected: seq<string>, affected: seq<string>, item: Item)
    requires Accepted(prior, candidate, baseCommit, selected, affected) && item.key in Protected(prior, affected)
    ensures item in prior.items <==> item in candidate.items
  {
    var mine :| mine in prior.items && mine.key == item.key;
    AcceptedScope(prior, candidate, baseCommit, selected, affected);
    ProtectedItemKept(prior, candidate, baseCommit, selected, affected, mine);
    hide Accepted;
    ByKeyUnique(prior.items, mine);
    ByKeyUnique(candidate.items, mine);
    if item in prior.items { ByKeyUnique(prior.items, item); }
    if item in candidate.items { ByKeyUnique(candidate.items, item); }
  }

  /** The verdict depends on the candidate's set of items, not on their order. */
  lemma SameVerdict(prior: Plan, candidate: Plan, other: Plan, baseCommit: string, selected: seq<string>, affected: seq<string>)
    requires UniqueKeys(candidate.items) && UniqueKeys(other.items)
    requires other == candidate.(items := other.items)
    requires forall item :: item in other.items <==> item in candidate.items
    ensures ValidateCandidate(prior, candidate, baseCommit, selected, affected)
         == ValidateCandidate(prior, other, baseCommit, selected, affected)
  {
    hide UniqueKeys, Owner, ScopeFor, Crossing, ByKey;
    SameIndex(candidate.items, other.items);
    SameCrossing(candidate.items, other.items, Keys(prior.items) - Members(affected));
  }

  lemma SameIndex(items: seq<Item>, others: seq<Item>)
    requires UniqueKeys(items) && UniqueKeys(others) && forall item :: item in others <==> item in items
    ensures ByKey(items) == ByKey(others)
  {
    hide UniqueKeys;
    assert Keys(items) == Keys(others);
    forall key | key in Keys(items) ensures ByKey(items)[key] == ByKey(others)[key] {
      ByKeyUnique(others, ByKey(items)[key]);
    }
  }

  lemma SameCrossing(items: seq<Item>, others: seq<Item>, protected: set<string>)
    requires forall item :: item in others <==> item in items
    ensures Crossing(items, protected) == Crossing(others, protected)
  {
    hide EdgesOf;
    assert Keys(items) == Keys(others);
  }
}