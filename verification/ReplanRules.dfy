/**
  The verdict on a replan candidate by the rules it must keep, stated from the two plans and the
  operator's selection, with the error that answers the first broken one.
 */
module ReplanRules {
  import opened Basics
  import opened Ordering
  import opened Backlog
  import opened Ownership
  import opened Replan
  import opened ReplanTheorems
  import opened DiffContents

  // ----- ancestors -----

  /** Some node `n` or fewer parent steps above `key`, or `key` itself, is selected. */
  ghost predicate Under(items: Items, selected: seq<string>, key: string) {
    exists n: nat :: Ancestor(items, key, n).Some? && Ancestor(items, key, n).value in selected
  }

  /** `root` is the first selected node on the way up from `key`. */
  ghost predicate Nearest(items: Items, selected: seq<string>, key: string, n: nat, root: string) {
    && Ancestor(items, key, n) == Some(root) && root in selected
    && forall m: nat | m < n && Ancestor(items, key, m).Some? :: Ancestor(items, key, m).value !in selected
  }

  ghost predicate NearestAt(items: Items, selected: seq<string>, key: string, n: nat) {
    Ancestor(items, key, n).Some? && Nearest(items, selected, key, n, Ancestor(items, key, n).value)
  }

  lemma NearestStep(items: Items, selected: seq<string>, key: string, n: nat)
    requires n > 0 && KnownParent(items, key).Some?
    ensures NearestAt(items, selected, key, n) <==>
      key !in selected && NearestAt(items, selected, KnownParent(items, key).value, n - 1)
  {
    var parent := KnownParent(items, key).value;
    forall m: nat ensures Ancestor(items, key, m + 1) == Ancestor(items, parent, m) {
      AncestorStep(items, key, m + 1);
    }
    assert Ancestor(items, key, 0) == Some(key);
    if NearestAt(items, selected, key, n) {
      forall m: nat | m < n - 1 && Ancestor(items, parent, m).Some? ensures Ancestor(items, parent, m).value !in selected {
        assert Ancestor(items, key, m + 1) == Ancestor(items, parent, m);
      }
    }
    if key !in selected && NearestAt(items, selected, parent, n - 1) {
      forall m: nat | m < n && Ancestor(items, key, m).Some? ensures Ancestor(items, key, m).value !in selected {
        if m > 0 {
          assert Ancestor(items, key, m) == Ancestor(items, parent, m - 1);
        }
      }
    }
  }

  lemma {:induction false} RootedIsNearest(items: Items, selected: seq<string>, key: string, n: nat)
    ensures RootedIn(items, Members(selected), key, n) <==> NearestAt(items, selected, key, n)
    decreases n
  {
    if n > 0 && KnownParent(items, key).Some? {
      RootedIsNearest(items, selected, KnownParent(items, key).value, n - 1);
      NearestStep(items, selected, key, n);
    }
  }

  /** Among the selected nodes on the way up there is a first one. */
  lemma {:induction false} FirstAbove(items: Items, selected: seq<string>, key: string, n: nat) returns (k: nat)
    requires Ancestor(items, key, n).Some? && Ancestor(items, key, n).value in selected
    ensures k <= n && Ancestor(items, key, k).Some? && Nearest(items, selected, key, k, Ancestor(items, key, k).value)
    decreases n
  {
    if m: nat :| m < n && Ancestor(items, key, m).Some? && Ancestor(items, key, m).value in selected {
      k := FirstAbove(items, selected, key, m);
    } else {
      k := n;
    }
  }

  lemma OwnerIsNearest(items: Items, selected: seq<string>, key: string)
    ensures Owner(key, items, Members(selected)).Some? <==> Under(items, selected, key)
    ensures forall root :: Owner(key, items, Members(selected)) == Some(root) <==>
      exists n: nat :: Nearest(items, selected, key, n, root)
  {
    hide Owner, RootedIn, Nearest, Ancestor;
    var roots := Members(selected);
    OwnerExact(items, roots, key);
    forall n: nat ensures RootedIn(items, roots, key, n) <==> NearestAt(items, selected, key, n) {
      RootedIsNearest(items, selected, key, n);
    }
    if Owner(key, items, roots).Some? {
      var n: nat :| RootedIn(items, roots, key, n);
      NearestIsAncestor(items, selected, key, n, Ancestor(items, key, n).value);
    }
    if n: nat :| Ancestor(items, key, n).Some? && Ancestor(items, key, n).value in selected {
      var k := FirstAbove(items, selected, key, n);
    }
    forall root, n: nat | Nearest(items, selected, key, n, root) ensures Owner(key, items, roots) == Some(root) {
      NearestIsAncestor(items, selected, key, n, root);
    }
  }

  lemma NearestIsAncestor(items: Items, selected: seq<string>, key: string, n: nat, root: string)
    requires Nearest(items, selected, key, n, root)
    ensures Ancestor(items, key, n) == Some(root) && root in selected
  {
  }

  // ----- the rules -----

  ghost predicate SelectionValid(prior: Plan, selected: seq<string>, affected: seq<string>) {
    && selected != [] && Distinct(selected) && Distinct(affected)
    && forall root :: root in selected ==> root in Keys(prior.items) && root in affected
  }

  /** No selected root hangs, at any depth, below a selected root. */
  ghost predicate NotNested(prior: Plan, selected: seq<string>) {
    forall root, n: nat | root in selected && n > 0 ::
      Ancestor(ByKey(prior.items), root, n).Some? ==> Ancestor(ByKey(prior.items), root, n).value !in selected
  }

  ghost predicate Succeeds(prior: Plan, candidate: Plan) {
    && candidate.id == prior.id
    && candidate.version > prior.version
    && candidate.sourceIdea == prior.sourceIdea
  }

  /** `positions` lists, in order, where the prior plan names a node that is not affected. */
  ghost predicate Unaffected(items: seq<Item>, affected: seq<string>, positions: seq<nat>) {
    && (forall i, j :: 0 <= i < j < |positions| ==> positions[i] < positions[j])
    && (forall p: nat :: p in positions <==> p < |items| && items[p].key !in affected)
  }

  /** One binding for each protected node in item order, with the version and commit that own it so far. */
  ghost predicate CarriesBindings(prior: Plan, baseCommit: string, affected: seq<string>, bindings: seq<NodeBinding>) {
    exists positions ::
      && Unaffected(prior.items, affected, positions)
      && |positions| == |bindings|
      && forall i :: 0 <= i < |bindings| ==> BindingOf(prior, baseCommit, positions[i], bindings[i])
  }

  ghost predicate BindingOf(prior: Plan, baseCommit: string, p: nat, binding: NodeBinding) {
    && p < |prior.items|
    && binding.nodeKey == prior.items[p].key
    && OwnedBy(WithApprovedCommit(prior, baseCommit), binding.nodeKey, Provenance(binding.version, Some(binding.commit)))
  }

  ghost predicate CarriesScope(prior: Plan, candidate: Plan, baseCommit: string, selected: seq<string>, affected: seq<string>) {
    && candidate.replan.Some?
    && candidate.replan.value.baseVersion == prior.version
    && candidate.replan.value.selected == selected
    && candidate.replan.value.affected == affected
    && CarriesBindings(prior, baseCommit, affected, candidate.replan.value.bindings)
  }

  /** Nodes that are not affected are in the candidate unchanged. */
  ghost predicate KeepsProtected(prior: Plan, candidate: Plan, affected: seq<string>) {
    forall key | key in Keys(prior.items) && key !in affected ::
      key in Keys(candidate.items) && ByKey(candidate.items)[key] == ByKey(prior.items)[key]
  }

  ghost predicate KeepsRoots(candidate: Plan, selected: seq<string>) {
    forall root :: root in selected ==> root in Keys(candidate.items)
  }

  ghost predicate KeepsRootParents(prior: Plan, candidate: Plan, selected: seq<string>) {
    forall root | root in selected && root in Keys(prior.items) && root in Keys(candidate.items) ::
      ByKey(candidate.items)[root].parent == ByKey(prior.items)[root].parent
  }

  /** Every affected node that both plans hold is below the same nearest root in both. */
  ghost predicate KeepsOwners(prior: Plan, candidate: Plan, selected: seq<string>, affected: seq<string>) {
    forall key | key in affected && key !in selected && key in Keys(prior.items) && key in Keys(candidate.items) ::
      SameOwner(ByKey(prior.items), ByKey(candidate.items), selected, key)
  }

  ghost predicate SameOwner(before: Items, after: Items, selected: seq<string>, key: string) {
    exists root, n: nat, m: nat :: Nearest(before, selected, key, n, root) && Nearest(after, selected, key, m, root)
  }

  /** Every affected or introduced node of the candidate is below a selected root. */
  ghost predicate AllRooted(prior: Plan, candidate: Plan, selected: seq<string>, affected: seq<string>) {
    forall key | key in Keys(candidate.items) && (key in affected || key !in Keys(prior.items)) && key !in selected ::
      Under(ByKey(candidate.items), selected, key)
  }

  ghost predicate Separated(prior: Plan, affected: seq<string>, a: string, b: string) {
    (a in Protected(prior, affected)) != (b in Protected(prior, affected))
  }

  /** `a` and `b` are related, whichever of them declares it. */
  ghost predicate Related(items: seq<Item>, a: string, b: string) {
    Declares(items, RelatedEdge, a, b) || Declares(items, RelatedEdge, b, a)
  }

  /** Across the boundary both plans declare the same parents and relations. */
  ghost predicate KeepsBoundary(prior: Plan, candidate: Plan, affected: seq<string>) {
    && (forall kind, source, target | kind != RelatedEdge && Separated(prior, affected, source, target) ::
          Declares(prior.items, kind, source, target) <==> Declares(candidate.items, kind, source, target))
    && (forall a, b | Separated(prior, affected, a, b) :: Related(prior.items, a, b) <==> Related(candidate.items, a, b))
  }

  /** The answer to the first rule that is broken. */
  ghost function FirstBroken(prior: Plan, candidate: Plan, baseCommit: string, selected: seq<string>, affected: seq<string>)
    : Result<(), ReplanError>
  {
    if !SelectionValid(prior, selected, affected) then Err(InvalidRoots)
    else if !NotNested(prior, selected) then Err(NestedRoots)
    else if !Succeeds(prior, candidate) then Err(WrongBase)
    else if !CarriesScope(prior, candidate, baseCommit, selected, affected) then Err(WrongScope)
    else if !KeepsProtected(prior, candidate, affected) then Err(ProtectedNodeChanged)
    else if !KeepsRoots(candidate, selected) then Err(RootRemoved)
    else if !KeepsRootParents(prior, candidate, selected) then Err(RootParentChanged)
    else if !KeepsOwners(prior, candidate, selected, affected) then Err(OwnershipChanged)
    else if !AllRooted(prior, candidate, selected, affected) then Err(NotRooted)
    else if !KeepsBoundary(prior, candidate, affected) then Err(BoundaryRelationChanged)
    else Ok(())
  }

  // ----- the scope -----

  lemma {:induction false} RetainedCarried(prior: Plan, baseCommit: string, n: nat, affected: seq<string>) returns (positions: seq<nat>)
    requires n <= |prior.items|
    ensures Unaffected(prior.items[..n], affected, positions)
    ensures var bindings := RetainedBindings(prior, baseCommit, prior.items[..n], Members(affected));
            |positions| == |bindings| && forall i :: 0 <= i < |bindings| ==> BindingOf(prior, baseCommit, positions[i], bindings[i])
  {
    if n == 0 {
      positions := [];
    } else {
      positions := RetainedCarried(prior, baseCommit, n - 1, affected);
      RetainedOneMore(prior, baseCommit, n - 1, affected);
      var item := prior.items[n - 1];
      hide OwnedBy, RetainedBindings, EffectiveBinding;
      UnaffectedStep(prior.items, affected, positions, n - 1);
      if item.key !in affected {
        positions := positions + [n - 1];
      }
    }
  }

  lemma UnaffectedStep(items: seq<Item>, affected: seq<string>, positions: seq<nat>, n: nat)
    requires n < |items| && Unaffected(items[..n], affected, positions)
    ensures Unaffected(items[..n + 1], affected, if items[n].key in affected then positions else positions + [n])
  {
    forall i | 0 <= i < |positions| ensures positions[i] < n {
      assert positions[i] in positions;
    }
  }

  lemma RetainedOneMore(prior: Plan, baseCommit: string, n: nat, affected: seq<string>)
    requires n < |prior.items|
    ensures var shorter := RetainedBindings(prior, baseCommit, prior.items[..n], Members(affected));
            var longer := RetainedBindings(prior, baseCommit, prior.items[..n + 1], Members(affected));
            if prior.items[n].key in affected then longer == shorter
            else exists binding :: longer == shorter + [binding] && BindingOf(prior, baseCommit, n, binding)
  {
    hide OwnedBy;
    var item := prior.items[n];
    var owned := EffectiveBinding(prior, Some(baseCommit), item.key);
    assert prior.items[..n + 1][..n] == prior.items[..n];
    BindingExact(WithApprovedCommit(prior, baseCommit), item.key, owned);
    if item.key !in affected {
      assert BindingOf(prior, baseCommit, n, NodeBinding(item.key, owned.version, owned.commit.value));
    }
  }

  lemma {:induction false} PositionsUnique(items: seq<Item>, affected: seq<string>, a: seq<nat>, b: seq<nat>)
    requires Unaffected(items, affected, a) && Unaffected(items, affected, b)
    ensures a == b
  {
    IncreasingDetermined(a, b);
  }

  lemma {:induction false} IncreasingDetermined(a: seq<nat>, b: seq<nat>)
    requires forall i, j :: 0 <= i < j < |a| ==> a[i] < a[j]
    requires forall i, j :: 0 <= i < j < |b| ==> b[i] < b[j]
    requires forall p: nat :: p in a <==> p in b
    ensures a == b
    decreases |a|
  {
    if a != [] && b != [] {
      assert a[0] in b && b[0] in a;
      assert a[0] == b[0];
      assert a == [a[0]] + a[1..] && b == [b[0]] + b[1..];
      forall p: nat ensures p in a[1..] <==> p in b[1..] {
        assert p in a[1..] <==> p in a && p != a[0];
        assert p in b[1..] <==> p in b && p != b[0];
      }
      IncreasingDetermined(a[1..], b[1..]);
    } else if a != [] {
      FirstOf(a);
      assert false;
    } else if b != [] {
      FirstOf(b);
      assert false;
    }
  }

  lemma FirstOf(a: seq<nat>)
    requires a != []
    ensures exists p: nat :: p in a
  {
    assert a[0] in a;
  }

  lemma BindingOnce(prior: Plan, baseCommit: string, p: nat, a: NodeBinding, b: NodeBinding)
    requires BindingOf(prior, baseCommit, p, a) && BindingOf(prior, baseCommit, p, b)
    ensures a == b
  {
    hide OwnedBy;
    BindingExact(WithApprovedCommit(prior, baseCommit), a.nodeKey, Provenance(a.version, Some(a.commit)));
    BindingExact(WithApprovedCommit(prior, baseCommit), b.nodeKey, Provenance(b.version, Some(b.commit)));
  }

  lemma BindingsExact(prior: Plan, baseCommit: string, affected: seq<string>, bindings: seq<NodeBinding>)
    ensures CarriesBindings(prior, baseCommit, affected, bindings) <==>
      bindings == RetainedBindings(prior, baseCommit, prior.items, Members(affected))
  {
    hide RetainedBindings, BindingOf, Unaffected;
    var retained := RetainedBindings(prior, baseCommit, prior.items, Members(affected));
    assert prior.items[..|prior.items|] == prior.items;
    var positions := RetainedCarried(prior, baseCommit, |prior.items|, affected);
    assert CarriesBindings(prior, baseCommit, affected, retained);
    if CarriesBindings(prior, baseCommit, affected, bindings) {
      var others :| Unaffected(prior.items, affected, others) && |others| == |bindings|
        && forall i :: 0 <= i < |bindings| ==> BindingOf(prior, baseCommit, others[i], bindings[i]);
      PositionsUnique(prior.items, affected, positions, others);
      forall i | 0 <= i < |bindings| ensures bindings[i] == retained[i] {
        BindingOnce(prior, baseCommit, positions[i], bindings[i], retained[i]);
      }
    }
  }

  lemma ScopeExact(prior: Plan, candidate: Plan, baseCommit: string, selected: seq<string>, affected: seq<string>)
    ensures CarriesScope(prior, candidate, baseCommit, selected, affected) <==>
      candidate.replan == Some(ScopeFor(prior, baseCommit, selected, affected))
  {
    hide CarriesBindings, RetainedBindings;
    if candidate.replan.Some? {
      BindingsExact(prior, baseCommit, affected, candidate.replan.value.bindings);
    }
  }

  // ----- nesting -----

  lemma AncestorStep(items: Items, key: string, n: nat)
    requires n > 0
    ensures Ancestor(items, key, n)
         == if KnownParent(items, key).None? then None else Ancestor(items, KnownParent(items, key).value, n - 1)
  {
  }

  ghost predicate RootNested(items: Items, selected: seq<string>, root: string) {
    exists n: nat :: n > 0 && Ancestor(items, root, n).Some? && Ancestor(items, root, n).value in selected
  }

  /** The steps above a root are the steps from its known parent on. */
  lemma StepsAbove(items: Items, selected: seq<string>, root: string)
    ensures RootNested(items, selected, root) <==>
      KnownParent(items, root).Some? && Under(items, selected, KnownParent(items, root).value)
  {
    hide Ancestor, KnownParent;
    var parent := KnownParent(items, root);
    if n: nat :| n > 0 && Ancestor(items, root, n).Some? && Ancestor(items, root, n).value in selected {
      AncestorStep(items, root, n);
      assert parent.Some? && Ancestor(items, parent.value, n - 1) == Ancestor(items, root, n);
    }
    if parent.Some? && Under(items, selected, parent.value) {
      var n: nat :| Ancestor(items, parent.value, n).Some? && Ancestor(items, parent.value, n).value in selected;
      AncestorStep(items, root, n + 1);
      assert Ancestor(items, root, n + 1) == Ancestor(items, parent.value, n);
    }
  }

  lemma RootNestedExact(items: Items, selected: seq<string>, root: string)
    requires root in items && forall key :: key in selected ==> key in items
    ensures RootNested(items, selected, root) <==>
      items[root].parent.Some? && Owner(items[root].parent.value, items, Members(selected)).Some?
  {
    hide Owner, RootNested, Under;
    StepsAbove(items, selected, root);
    if KnownParent(items, root).Some? {
      OwnerIsNearest(items, selected, KnownParent(items, root).value);
    } else if items[root].parent.Some? {
      UnknownUnowned(items, Members(selected), items[root].parent.value);
    }
  }

  lemma NestingExact(prior: Plan, selected: seq<string>)
    requires forall root :: root in selected ==> root in Keys(prior.items)
    ensures NotNested(prior, selected) <==> !Nests(ByKey(prior.items), Members(selected))
  {
    hide Owner, Ancestor, ByKey;
    var items := ByKey(prior.items);
    forall root | root in selected
      ensures RootNested(items, selected, root) <==>
                items[root].parent.Some? && Owner(items[root].parent.value, items, Members(selected)).Some?
    {
      RootNestedExact(items, selected, root);
    }
    assert Nests(items, Members(selected)) <==> exists root :: root in selected && RootNested(items, selected, root);
  }

  lemma UnknownUnowned(items: Items, roots: set<string>, key: string)
    requires key !in items && key !in roots
    ensures Owner(key, items, roots).None?
  {
  }

  // ----- ownership -----

  lemma OwnersExact(before: Items, after: Items, selected: seq<string>, key: string)
    ensures SameOwner(before, after, selected, key) <==>
      Owner(key, before, Members(selected)).Some? && Owner(key, after, Members(selected)) == Owner(key, before, Members(selected))
  {
    hide Owner, Nearest;
    OwnerIsNearest(before, selected, key);
    OwnerIsNearest(after, selected, key);
    var owner := Owner(key, before, Members(selected));
    if owner.Some? && Owner(key, after, Members(selected)) == owner {
      var n: nat :| Nearest(before, selected, key, n, owner.value);
      var m: nat :| Nearest(after, selected, key, m, owner.value);
      assert Nearest(before, selected, key, n, owner.value) && Nearest(after, selected, key, m, owner.value);
    }
    if SameOwner(before, after, selected, key) {
      var root, n: nat, m: nat :| Nearest(before, selected, key, n, root) && Nearest(after, selected, key, m, root);
      assert owner == Some(root) && Owner(key, after, Members(selected)) == Some(root);
    }
  }

  // ----- the boundary -----

  lemma RelatedCrossing(items: seq<Item>, protected: set<string>, a: string, b: string)
    requires TextLe(a, b)
    ensures Edge(RelatedEdge, a, b) in Crossing(items, protected) <==>
      ((a in protected) != (b in protected)) && Related(items, a, b)
  {
    hide EdgesOf, TextLe;
    var edge := Edge(RelatedEdge, a, b);
    forall item
      ensures edge in EdgesOf(item, Keys(items), protected) <==>
        exists target :: target in item.relatedTo && Crosses(item.key, target, Keys(items), protected)
                         && OrderedPair(item.key, target) == (a, b)
    {
      RelatedEdgesExact(item, Keys(items), protected, a, b);
    }
    if edge in Crossing(items, protected) {
      var item :| item in items && edge in EdgesOf(item, Keys(items), protected);
      var target :| target in item.relatedTo && Crosses(item.key, target, Keys(items), protected)
                    && OrderedPair(item.key, target) == (a, b);
      TextLeTotal(item.key, target);
      assert Declares(items, RelatedEdge, item.key, target);
    }
    if (a in protected) != (b in protected) {
      if Declares(items, RelatedEdge, a, b) {
        RelatedDeclared(items, protected, a, b, a, b);
      }
      if Declares(items, RelatedEdge, b, a) {
        RelatedDeclared(items, protected, a, b, b, a);
      }
    }
  }

  lemma RelatedDeclared(items: seq<Item>, protected: set<string>, a: string, b: string, source: string, target: string)
    requires TextLe(a, b) && Declares(items, RelatedEdge, source, target)
    requires (source == a && target == b) || (source == b && target == a)
    requires (a in protected) != (b in protected)
    ensures Edge(RelatedEdge, a, b) in Crossing(items, protected)
  {
    hide Crossing, TextLe;
    var item :| item in items && item.key == source && target in DeclaredBy(item, RelatedEdge);
    if source == b && TextLe(b, a) {
      TextLeAntisymmetric(a, b);
    }
    RelatedCrosses(items, protected, item, target);
  }

  lemma RelatedEdgesExact(item: Item, known: set<string>, protected: set<string>, a: string, b: string)
    ensures Edge(RelatedEdge, a, b) in EdgesOf(item, known, protected) <==>
      exists target :: target in item.relatedTo && Crosses(item.key, target, known, protected)
                       && OrderedPair(item.key, target) == (a, b)
  {
    hide Crosses, OrderedPair;
  }

  lemma CrossingOrdered(items: seq<Item>, protected: set<string>, edge: Edge)
    requires edge in Crossing(items, protected) && edge.kind == RelatedEdge
    ensures TextLe(edge.source, edge.target)
  {
    hide EdgesOf;
    var item :| item in items && edge in EdgesOf(item, Keys(items), protected);
    assert edge == Edge(RelatedEdge, edge.source, edge.target);
    RelatedEdgesExact(item, Keys(items), protected, edge.source, edge.target);
    var target :| target in item.relatedTo && OrderedPair(item.key, target) == (edge.source, edge.target);
    PairOrdered(item.key, target, edge.source, edge.target);
  }

  lemma PairOrdered(a: string, b: string, low: string, high: string)
    requires OrderedPair(a, b) == (low, high)
    ensures TextLe(low, high)
  {
    TextLeTotal(a, b);
    assert (low, high).0 == low && (low, high).1 == high;
  }

  lemma BoundaryExact(prior: Plan, candidate: Plan, affected: seq<string>)
    ensures KeepsBoundary(prior, candidate, affected) <==>
      Crossing(prior.items, Protected(prior, affected)) == Crossing(candidate.items, Protected(prior, affected))
  {
    hide Crossing, Declares, Protected, TextLe;
    var protected := Protected(prior, affected);
    var mine, theirs := Crossing(prior.items, protected), Crossing(candidate.items, protected);
    forall kind, source, target | kind != RelatedEdge
      ensures Edge(kind, source, target) in mine <==>
                Declares(prior.items, kind, source, target) && Separated(prior, affected, source, target)
      ensures Edge(kind, source, target) in theirs <==>
                Declares(candidate.items, kind, source, target) && Separated(prior, affected, source, target)
    {
      CrossingExact(prior.items, protected, kind, source, target);
      CrossingExact(candidate.items, protected, kind, source, target);
    }
    forall a, b | TextLe(a, b)
      ensures Edge(RelatedEdge, a, b) in mine <==> Separated(prior, affected, a, b) && Related(prior.items, a, b)
      ensures Edge(RelatedEdge, a, b) in theirs <==> Separated(prior, affected, a, b) && Related(candidate.items, a, b)
    {
      RelatedCrossing(prior.items, protected, a, b);
      RelatedCrossing(candidate.items, protected, a, b);
    }
    if KeepsBoundary(prior, candidate, affected) {
      forall edge ensures edge in mine <==> edge in theirs {
        assert edge == Edge(edge.kind, edge.source, edge.target);
        if edge.kind == RelatedEdge {
          if edge in mine { CrossingOrdered(prior.items, protected, edge); }
          if edge in theirs { CrossingOrdered(candidate.items, protected, edge); }
        }
      }
      assert mine == theirs;
    }
    if mine == theirs {
      forall a, b | Separated(prior, affected, a, b) ensures Related(prior.items, a, b) <==> Related(candidate.items, a, b) {
        TextLeTotal(a, b);
        if TextLe(a, b) {
          assert Edge(RelatedEdge, a, b) in mine <==> Edge(RelatedEdge, a, b) in theirs;
        } else {
          assert Separated(prior, affected, b, a);
          assert Edge(RelatedEdge, b, a) in mine <==> Edge(RelatedEdge, b, a) in theirs;
        }
      }
    }
  }

  // ----- the verdict -----

  lemma SelectionExact(prior: Plan, selected: seq<string>, affected: seq<string>)
    ensures SelectionValid(prior, selected, affected) <==> !InvalidSelection(ByKey(prior.items), selected, affected)
  {
    hide Distinct;
    var roots := Members(selected);
    assert forall key :: key in roots <==> key in selected;
    if selected != [] {
      assert selected[0] in roots;
    }
  }

  lemma ProtectedExact(prior: Plan, candidate: Plan, affected: seq<string>)
    ensures KeepsProtected(prior, candidate, affected) <==>
      !ChangesProtected(ByKey(prior.items), ByKey(candidate.items), Members(affected))
  {
  }

  lemma RootsExact(candidate: Plan, selected: seq<string>)
    ensures KeepsRoots(candidate, selected) <==> Members(selected) <= ByKey(candidate.items).Keys
  {
    assert forall key :: key in Members(selected) <==> key in selected;
  }

  lemma RootParentsExact(prior: Plan, candidate: Plan, selected: seq<string>)
    ensures KeepsRootParents(prior, candidate, selected) <==>
      !ChangesRootParent(ByKey(prior.items), ByKey(candidate.items), Members(selected))
  {
  }

  lemma OwnersKept(prior: Plan, candidate: Plan, selected: seq<string>, affected: seq<string>)
    ensures KeepsOwners(prior, candidate, selected, affected) <==>
      !ChangesOwner(ByKey(prior.items), ByKey(candidate.items), Members(selected), Members(affected))
  {
    hide Owner, SameOwner;
    var before, after := ByKey(prior.items), ByKey(candidate.items);
    forall key
      ensures SameOwner(before, after, selected, key) <==>
                Owner(key, before, Members(selected)).Some?
                && Owner(key, after, Members(selected)) == Owner(key, before, Members(selected))
    {
      OwnersExact(before, after, selected, key);
    }
  }

  lemma RootedExact(prior: Plan, candidate: Plan, selected: seq<string>, affected: seq<string>)
    ensures AllRooted(prior, candidate, selected, affected) <==>
      !LeavesUnrooted(ByKey(prior.items), ByKey(candidate.items), Members(selected), Members(affected))
  {
    hide Owner, Under;
    var before, after := ByKey(prior.items), ByKey(candidate.items);
    forall key ensures Owner(key, after, Members(selected)).Some? <==> Under(after, selected, key) {
      OwnerIsNearest(after, selected, key);
    }
    if key :| key in after && (key in affected || key !in before) && key !in selected && !Under(after, selected, key) {
      assert key in Keys(candidate.items) && Owner(key, after, Members(selected)).None?;
    }
  }

  /**
    The verdict answers the first broken rule; a candidate is accepted if and only if it keeps
    them all.
   */
  lemma VerdictExact(prior: Plan, candidate: Plan, baseCommit: string, selected: seq<string>, affected: seq<string>)
    ensures ValidateCandidate(prior, candidate, baseCommit, selected, affected)
         == FirstBroken(prior, candidate, baseCommit, selected, affected)
  {
    hide ScopeFor, Crossing, NotNested, CarriesScope, KeepsOwners, AllRooted, KeepsBoundary, SelectionValid, KeepsProtected,
         KeepsRoots, KeepsRootParents, InvalidSelection, Nests, ChangesProtected, ChangesRootParent, ChangesOwner,
         LeavesUnrooted, ByKey;
    SelectionExact(prior, selected, affected);
    if SelectionValid(prior, selected, affected) {
      SelectedKnown(prior, selected, affected);
      NestingExact(prior, selected);
    }
    ScopeExact(prior, candidate, baseCommit, selected, affected);
    ProtectedExact(prior, candidate, affected);
    RootsExact(candidate, selected);
    RootParentsExact(prior, candidate, selected);
    OwnersKept(prior, candidate, selected, affected);
    RootedExact(prior, candidate, selected, affected);
    BoundaryExact(prior, candidate, affected);
  }

  lemma SelectedKnown(prior: Plan, selected: seq<string>, affected: seq<string>)
    requires SelectionValid(prior, selected, affected)
    ensures forall root :: root in selected ==> root in Keys(prior.items)
  {
  }

  /** Acceptance, rule by rule. */
  lemma AcceptedExact(prior: Plan, candidate: Plan, baseCommit: string, selected: seq<string>, affected: seq<string>)
    ensures ValidateCandidate(prior, candidate, baseCommit, selected, affected).Ok? <==>
      && SelectionValid(prior, selected, affected)
      && NotNested(prior, selected)
      && Succeeds(prior, candidate)
      && CarriesScope(prior, candidate, baseCommit, selected, affected)
      && KeepsProtected(prior, candidate, affected)
      && KeepsRoots(candidate, selected)
      && KeepsRootParents(prior, candidate, selected)
      && KeepsOwners(prior, candidate, selected, affected)
      && AllRooted(prior, candidate, selected, affected)
      && KeepsBoundary(prior, candidate, affected)
  {
    hide ValidateCandidate;
    VerdictExact(prior, candidate, baseCommit, selected, affected);
  }

  // ----- the order of the bounded plan -----

  /** An item with key `a` stands before one with key `b`. */
  ghost predicate InOrder(items: seq<Item>, a: string, b: string) {
    exists p, q :: 0 <= p < q < |items| && items[p].key == a && items[q].key == b
  }

  /** Nodes of the prior plan keep its order and come first; introduced ones follow in the order they were proposed. */
  ghost predicate Ahead(prior: Plan, proposed: Plan, a: string, b: string) {
    if b in Keys(prior.items) then InOrder(prior.items, a, b)
    else a in Keys(prior.items) || InOrder(proposed.items, a, b)
  }

  ghost predicate Listing(items: seq<Item>, keys: seq<string>) {
    forall i, j :: 0 <= i < j < |keys| ==> InOrder(items, keys[i], keys[j])
  }

  function KeysOf(items: seq<Item>): seq<string> {
    seq(|items|, i requires 0 <= i < |items| => items[i].key)
  }

  lemma InOrderGrows(items: seq<Item>, n: nat, a: string, b: string)
    requires n <= |items| && InOrder(items[..n], a, b)
    ensures InOrder(items, a, b)
  {
    var p, q :| 0 <= p < q < |items[..n]| && items[..n][p].key == a && items[..n][q].key == b;
    assert items[p].key == a && items[q].key == b;
  }

  lemma ListingGrows(items: seq<Item>, keys: seq<string>, n: nat)
    requires n < |items| && Listing(items[..n], keys)
    requires forall key :: key in keys ==> key in Keys(items[..n])
    ensures Listing(items[..n + 1], keys) && Listing(items[..n + 1], keys + [items[n].key])
    ensures Keys(items[..n + 1]) == Keys(items[..n]) + {items[n].key}
  {
    var more := items[..n + 1];
    assert more == items[..n] + [items[n]] && more[..n] == items[..n];
    forall i, j | 0 <= i < j < |keys| ensures InOrder(more, keys[i], keys[j]) {
      InOrderGrows(more, n, keys[i], keys[j]);
    }
    forall i | 0 <= i < |keys| ensures InOrder(more, keys[i], items[n].key) {
      assert keys[i] in keys;
      var item :| item in items[..n] && item.key == keys[i];
      var p :| 0 <= p < n && items[..n][p] == item;
      assert more[p].key == keys[i] && more[n].key == items[n].key;
    }
  }

  lemma {:induction false} OverlayListing(items: seq<Item>, n: nat, affected: set<string>, proposed: map<string, Item>)
    requires n <= |items| && forall key | key in proposed :: proposed[key].key == key
    ensures var keys := KeysOf(Overlay(items[..n], affected, proposed));
            Listing(items[..n], keys) && forall key :: key in keys ==> key in Keys(items[..n])
  {
    hide Listing;
    if n == 0 {
      EmptyListing(items[..0]);
    } else {
      OverlayListing(items, n - 1, affected, proposed);
      assert items[..n][..n - 1] == items[..n - 1] && items[..n][n - 1] == items[n - 1];
      var shorter, longer := Overlay(items[..n - 1], affected, proposed), Overlay(items[..n], affected, proposed);
      ListingGrows(items, KeysOf(shorter), n - 1);
      assert longer == shorter || KeysOf(longer) == KeysOf(shorter) + [items[n - 1].key];
    }
  }

  lemma EmptyListing(items: seq<Item>)
    ensures Listing(items, [])
  {
  }

  lemma {:induction false} IntroducedListing(items: seq<Item>, n: nat, known: set<string>)
    requires n <= |items|
    ensures var keys := KeysOf(Introduced(items[..n], known));
            Listing(items[..n], keys) && forall key :: key in keys ==> key in Keys(items[..n])
  {
    hide Listing;
    if n == 0 {
      EmptyListing(items[..0]);
    } else {
      IntroducedListing(items, n - 1, known);
      assert items[..n][..n - 1] == items[..n - 1] && items[..n][n - 1] == items[n - 1];
      var shorter, longer := Introduced(items[..n - 1], known), Introduced(items[..n], known);
      ListingGrows(items, KeysOf(shorter), n - 1);
      assert longer == shorter || KeysOf(longer) == KeysOf(shorter) + [items[n - 1].key];
    }
  }

  /** Together with `BoundedMembers` this determines the items of the bounded plan. */
  lemma BoundedOrder(prior: Plan, proposed: Plan, baseCommit: string, selected: seq<string>, affected: seq<string>, i: nat, j: nat)
    requires i < j < |Bounded(prior, proposed, baseCommit, selected, affected).items|
    ensures var items := Bounded(prior, proposed, baseCommit, selected, affected).items;
            Ahead(prior, proposed, items[i].key, items[j].key)
  {
    hide Overlay, Introduced, ScopeFor, ByKey;
    var kept := Overlay(prior.items, Members(affected), ByKey(proposed.items));
    var added := Introduced(proposed.items, Keys(prior.items));
    assert prior.items[..|prior.items|] == prior.items && proposed.items[..|proposed.items|] == proposed.items;
    OverlayListing(prior.items, |prior.items|, Members(affected), ByKey(proposed.items));
    IntroducedListing(proposed.items, |proposed.items|, Keys(prior.items));
    if i < |kept| {
      assert KeysOf(kept)[i] == kept[i].key && kept[i].key in KeysOf(kept);
    } else {
      assert KeysOf(added)[i - |kept|] == added[i - |kept|].key;
    }
    if j < |kept| {
      assert KeysOf(kept)[j] == kept[j].key && kept[j].key in KeysOf(kept);
    } else {
      assert KeysOf(added)[j - |kept|] == added[j - |kept|].key && added[j - |kept|] in added;
      IntroducedMembers(proposed.items, Keys(prior.items), added[j - |kept|]);
    }
  }
}
