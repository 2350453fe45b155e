/** The partial-replan boundary: which nodes may change, and what must stay. */
module Replan {
  import opened Basics
  import opened Backlog
  import opened Ownership

  // ----- provenance carried by a replan -----

  /** Bindings of the protected nodes, in item order. */
  function RetainedBindings(prior: Plan, baseCommit: string, items: seq<Item>, affected: set<string>): seq<NodeBinding> {
    if items == [] then [] else
      var item := items[|items| - 1];
      var owned := EffectiveBinding(prior, Some(baseCommit), item.key);
      RetainedBindings(prior, baseCommit, items[..|items| - 1], affected)
      + if item.key in affected then [] else [NodeBinding(item.key, owned.version, owned.commit.value)]
  }

  function ScopeFor(prior: Plan, baseCommit: string, selected: seq<string>, affected: seq<string>): ReplanScope {
    ReplanScope(prior.version, selected, affected, RetainedBindings(prior, baseCommit, prior.items, Members(affected)))
  }

  /** `build_replan_scope`. */
  method BuildReplanScope(prior: Plan, baseCommit: string, selected: seq<string>, affected: seq<string>)
    returns (scope: ReplanScope)
    ensures scope == ScopeFor(prior, baseCommit, selected, affected)
  {
    var protected := Keys(prior.items) - Members(affected);
    var bindings: seq<NodeBinding> := [];
    for i := 0 to |prior.items|
      invariant bindings == RetainedBindings(prior, baseCommit, prior.items[..i], Members(affected))
    {
      assert prior.items[..i + 1][..i] == prior.items[..i];
      var item := prior.items[i];
      if item.key in protected {
        var owned := EffectiveBinding(prior, Some(baseCommit), item.key);
        bindings := bindings + [NodeBinding(item.key, owned.version, owned.commit.value)];
      }
    }
    assert prior.items[..|prior.items|] == prior.items;
    return ReplanScope(prior.version, selected, affected, bindings);
  }

  // ----- relations across the boundary -----

  datatype EdgeKind = ParentEdge | BlockedByEdge | SequenceEdge | RequiredEdge | DecisionEdge | MutexEdge | RelatedEdge

  datatype Edge = Edge(kind: EdgeKind, source: string, target: string)

  predicate Crosses(source: string, target: string, known: set<string>, protected: set<string>) {
    target in known && ((source in protected) != (target in protected))
  }

  function DirectedEdges(kind: EdgeKind, source: string, targets: seq<string>, known: set<string>, protected: set<string>): set<Edge> {
    set target | target in targets && Crosses(source, target, known, protected) :: Edge(kind, source, target)
  }

  function RelatedEdges(source: string, targets: seq<string>, known: set<string>, protected: set<string>): set<Edge> {
    set target | target in targets && Crosses(source, target, known, protected)
      :: Edge(RelatedEdge, OrderedPair(source, target).0, OrderedPair(source, target).1)
  }

  function EdgesOf(item: Item, known: set<string>, protected: set<string>): set<Edge> {
    DirectedEdges(ParentEdge, item.key, if item.parent.Some? then [item.parent.value] else [], known, protected)
    + DirectedEdges(BlockedByEdge, item.key, item.blockedBy, known, protected)
    + DirectedEdges(SequenceEdge, item.key, item.sequenceAfter, known, protected)
    + DirectedEdges(RequiredEdge, item.key, item.decisionRequired, known, protected)
    + DirectedEdges(DecisionEdge, item.key, item.decisions, known, protected)
    + DirectedEdges(MutexEdge, item.key, item.mutex, known, protected)
    + RelatedEdges(item.key, item.relatedTo, known, protected)
  }

  /** Every edge between a protected and an unprotected node. */
  function Crossing(items: seq<Item>, protected: set<string>): set<Edge> {
    set item, edge | item in items && edge in EdgesOf(item, Keys(items), protected) :: edge
  }

  /** `_cross_boundary_edges`: fills one set item by item. */
  method CrossBoundaryEdges(items: seq<Item>, protected: set<string>) returns (edges: set<Edge>)
    ensures edges == Crossing(items, protected)
  {
    hide EdgesOf;
    edges := {};
    var known := Keys(items);
    for i := 0 to |items|
      invariant edges == set item, edge | item in items[..i] && edge in EdgesOf(item, known, protected) :: edge
    {
      assert items[..i + 1] == items[..i] + [items[i]];
      edges := edges + EdgesOf(items[i], known, protected);
    }
    assert items[..|items|] == items;
  }

  // ----- the checks -----

  datatype ReplanError =
    | InvalidRoots | NestedRoots | WrongBase | WrongScope | ProtectedNodeChanged | RootRemoved
    | RootParentChanged | OwnershipChanged | NotRooted | BoundaryRelationChanged | DuplicateKeys

  predicate InvalidSelection(before: Items, selected: seq<string>, affected: seq<string>) {
    var roots := Members(selected);
    roots == {} || !Distinct(selected) || !(roots <= before.Keys) || !Distinct(affected) || !(roots <= Members(affected))
  }

  predicate Nests(before: Items, roots: set<string>) {
    exists root | root in roots ::
      root in before && before[root].parent.Some? && Owner(before[root].parent.value, before, roots).Some?
  }

  predicate ChangesProtected(before: Items, after: Items, closure: set<string>) {
    exists key | key in before :: key !in closure && !(key in after && after[key] == before[key])
  }

  predicate ChangesRootParent(before: Items, after: Items, roots: set<string>) {
    exists root | root in roots :: root in after && root in before && after[root].parent != before[root].parent
  }

  predicate ChangesOwner(before: Items, after: Items, roots: set<string>, closure: set<string>) {
    exists key | key in closure ::
      key in before && key in after && key !in roots
      && (Owner(key, before, roots).None? || Owner(key, after, roots) != Owner(key, before, roots))
  }

  predicate LeavesUnrooted(before: Items, after: Items, roots: set<string>, closure: set<string>) {
    exists key | key in after ::
      (key in closure || key !in before) && key !in roots && Owner(key, after, roots).None?
  }

  function ValidateCandidate(prior: Plan, candidate: Plan, baseCommit: string, selected: seq<string>, affected: seq<string>)
    : Result<(), ReplanError>
  {
    var roots, closure := Members(selected), Members(affected);
    var before, after := ByKey(prior.items), ByKey(candidate.items);
    var protected := before.Keys - closure;
    if InvalidSelection(before, selected, affected) then Err(InvalidRoots)
    else if Nests(before, roots) then Err(NestedRoots)
    else if candidate.id != prior.id || candidate.version <= prior.version || candidate.sourceIdea != prior.sourceIdea then
      Err(WrongBase)
    else if candidate.replan != Some(ScopeFor(prior, baseCommit, selected, affected)) then Err(WrongScope)
    else if ChangesProtected(before, after, closure) then Err(ProtectedNodeChanged)
    else if !(roots <= after.Keys) then Err(RootRemoved)
    else if ChangesRootParent(before, after, roots) then Err(RootParentChanged)
    else if ChangesOwner(before, after, roots, closure) then Err(OwnershipChanged)
    else if LeavesUnrooted(before, after, roots, closure) then Err(NotRooted)
    else if Crossing(prior.items, protected) != Crossing(candidate.items, protected) then Err(BoundaryRelationChanged)
    else Ok(())
  }

  /** Prior items outside the boundary, then inside it as proposed. */
  function Overlay(items: seq<Item>, affected: set<string>, proposed: map<string, Item>): seq<Item> {
    if items == [] then [] else
      var item := items[|items| - 1];
      Overlay(items[..|items| - 1], affected, proposed)
      + if item.key !in affected then [item] else if item.key in proposed then [proposed[item.key]] else []
  }

  function Introduced(items: seq<Item>, known: set<string>): seq<Item> {
    if items == [] then [] else
      var item := items[|items| - 1];
      Introduced(items[..|items| - 1], known) + if item.key in known then [] else [item]
  }

  function Bounded(prior: Plan, proposed: Plan, baseCommit: string, selected: seq<string>, affected: seq<string>): Plan {
    proposed.(
      replan := Some(ScopeFor(prior, baseCommit, selected, affected)),
      items := Overlay(prior.items, Members(affected), ByKey(proposed.items))
               + Introduced(proposed.items, Keys(prior.items)))
  }

  predicate HasUniqueKeys(items: seq<Item>)
    ensures HasUniqueKeys(items) <==> UniqueKeys(items)
  {
    forall i, j :: 0 <= i < j < |items| ==> items[i].key != items[j].key
  }

  /** `apply_replan_boundary`. */
  method ApplyReplanBoundary(prior: Plan, proposed: Plan, baseCommit: string, selected: seq<string>, affected: seq<string>)
    returns (result: Result<Plan, ReplanError>)
    ensures !UniqueKeys(proposed.items) ==> result == Err(DuplicateKeys)
    ensures UniqueKeys(proposed.items) && !(Members(selected) <= Keys(proposed.items)) ==> result == Err(RootRemoved)
    ensures UniqueKeys(proposed.items) && Members(selected) <= Keys(proposed.items) ==>
      var bounded := Bounded(prior, proposed, baseCommit, selected, affected);
      result == match ValidateCandidate(prior, bounded, baseCommit, selected, affected)
                case Ok(_) => Ok(bounded)
                case Err(error) => Err(error)
  {
    hide ValidateCandidate, ScopeFor, ByKey;
    if !HasUniqueKeys(proposed.items) {
      return Err(DuplicateKeys);
    }
    var byKey := ByKey(proposed.items);
    if !(Members(selected) <= byKey.Keys) {
      return Err(RootRemoved);
    }
    var merged: seq<Item> := [];
    for i := 0 to |prior.items|
      invariant merged == Overlay(prior.items[..i], Members(affected), byKey)
    {
      assert prior.items[..i + 1][..i] == prior.items[..i];
      var item := prior.items[i];
      if item.key !in Members(affected) {
        merged := merged + [item];
      } else if item.key in byKey {
        merged := merged + [byKey[item.key]];
      }
    }
    assert prior.items[..|prior.items|] == prior.items;
    ghost var overlay := merged;
    for i := 0 to |proposed.items|
      invariant merged == overlay + Introduced(proposed.items[..i], Keys(prior.items))
    {
      assert proposed.items[..i + 1][..i] == proposed.items[..i];
      if proposed.items[i].key !in Keys(prior.items) {
        merged := merged + [proposed.items[i]];
      }
    }
    assert proposed.items[..|proposed.items|] == proposed.items;
    var scope := BuildReplanScope(prior, baseCommit, selected, affected);
    var bounded := proposed.(replan := Some(scope), items := merged);
    var verdict := ValidateCandidate(prior, bounded, baseCommit, selected, affected);
    if verdict.Err? {
      return Err(verdict.error);
    }
    return Ok(bounded);
  }
}
