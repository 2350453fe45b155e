/** The endpoint-collision rule of plan validation, against the native endpoints it protects. */
module EndpointCollisions {
  import opened Basics
  import opened Ordering
  import opened Backlog

  /** One reference of one item, as the validator meets it. */
  datatype Use = Use(kind: RelationKind, node: string, target: string)

  type Pair = (string, string)

  datatype Issue = Issue(pair: Pair, node: string)

  /** Stored endpoints; for `related_to` only the unordered pair is known. */
  function Ends(use: Use): Pair {
    match use.kind
    case BlockedBy => (use.target, use.node)
    case RelatedTo => OrderedPair(use.node, use.target)
    case _ => (use.node, use.target)
  }

  function Unordered(pair: Pair): Pair {
    OrderedPair(pair.0, pair.1)
  }

  function UsesOf(kind: RelationKind, node: string, targets: seq<string>): seq<Use> {
    seq(|targets|, i requires 0 <= i < |targets| => Use(kind, node, targets[i]))
  }

  function DirectedOf(item: Item): seq<Use> {
    UsesOf(BlockedBy, item.key, item.blockedBy)
    + UsesOf(SequenceAfter, item.key, item.sequenceAfter)
    + UsesOf(DecisionRequired, item.key, item.decisionRequired)
    + UsesOf(GovernedBy, item.key, item.decisions)
  }

  function Directed(items: seq<Item>): seq<Use> {
    if items == [] then [] else Directed(items[..|items| - 1]) + DirectedOf(items[|items| - 1])
  }

  function Related(items: seq<Item>): seq<Use> {
    if items == [] then []
    else Related(items[..|items| - 1]) + UsesOf(RelatedTo, items[|items| - 1].key, items[|items| - 1].relatedTo)
  }

  function OnPair(uses: seq<Use>, pair: Pair): seq<Use> {
    if uses == [] then [] else
      OnPair(uses[..|uses| - 1], pair) + (if Ends(uses[|uses| - 1]) == pair then [uses[|uses| - 1]] else [])
  }

  ghost predicate Groups(table: map<Pair, seq<Use>>, uses: seq<Use>) {
    && (forall pair :: pair in table <==> OnPair(uses, pair) != [])
    && (forall pair :: pair in table ==> table[pair] == OnPair(uses, pair))
  }

  lemma {:induction false} OnPairMembers(uses: seq<Use>, pair: Pair)
    ensures forall use :: use in OnPair(uses, pair) <==> use in uses && Ends(use) == pair
  {
    if uses != [] {
      OnPairMembers(uses[..|uses| - 1], pair);
      assert uses == uses[..|uses| - 1] + [uses[|uses| - 1]];
    }
  }

  lemma OnPairEmpty(uses: seq<Use>, pair: Pair)
    ensures OnPair(uses, pair) == [] <==> forall use :: use in uses ==> Ends(use) != pair
  {
    OnPairMembers(uses, pair);
    hide Ends;
    assert OnPair(uses, pair) != [] ==> OnPair(uses, pair)[0] in OnPair(uses, pair);
  }

  ghost predicate Twice(uses: seq<Use>, pair: Pair) {
    exists i, j :: 0 <= i < j < |uses| && Ends(uses[i]) == pair == Ends(uses[j])
  }

  lemma TwiceExtends(front: seq<Use>, last: Use, pair: Pair)
    ensures Twice(front + [last], pair) <==>
      Twice(front, pair) || (Ends(last) == pair && exists use :: use in front && Ends(use) == pair)
  {
    hide Ends;
    var uses := front + [last];
    assert uses[|front|] == last && forall i :: 0 <= i < |front| ==> uses[i] == front[i];
    if i, j :| 0 <= i < j < |uses| && Ends(uses[i]) == pair == Ends(uses[j]) {
      assert front[i] in front;
      assert j < |front| ==> Ends(front[i]) == pair == Ends(front[j]);
    }
    if i, j :| 0 <= i < j < |front| && Ends(front[i]) == pair == Ends(front[j]) {
      assert Ends(uses[i]) == pair == Ends(uses[j]);
    }
    if use :| use in front && Ends(use) == pair {
      var i :| 0 <= i < |front| && front[i] == use;
      assert Ends(last) == pair ==> Ends(uses[i]) == pair == Ends(uses[|front|]);
    }
  }

  /** Two different occurrences on one pair are what makes its list longer than one. */
  lemma {:induction false} OnPairCrowded(uses: seq<Use>, pair: Pair)
    ensures |OnPair(uses, pair)| > 1 <==> Twice(uses, pair)
  {
    hide Ends, Twice;
    if uses != [] {
      var front, last := uses[..|uses| - 1], uses[|uses| - 1];
      OnPairCrowded(front, pair);
      OnPairMembers(front, pair);
      TwiceExtends(front, last, pair);
      assert uses == front + [last];
      assert OnPair(front, pair) != [] ==> OnPair(front, pair)[0] in OnPair(front, pair);
    } else {
      NothingTwice(pair);
    }
  }

  lemma NothingTwice(pair: Pair)
    ensures !Twice([], pair)
  {
  }

  lemma GroupsExtend(table: map<Pair, seq<Use>>, uses: seq<Use>, use: Use)
    requires Groups(table, uses)
    ensures Groups(table[Ends(use) := (if Ends(use) in table then table[Ends(use)] else []) + [use]], uses + [use])
  {
    hide Ends;
    assert (uses + [use])[..|uses + [use]| - 1] == uses;
  }

  method AddUses(table: map<Pair, seq<Use>>, kind: RelationKind, node: string, targets: seq<string>, ghost uses: seq<Use>)
    returns (r: map<Pair, seq<Use>>)
    requires Groups(table, uses)
    ensures Groups(r, uses + UsesOf(kind, node, targets))
  {
    hide Groups, Ends;
    r := table;
    assert uses + UsesOf(kind, node, targets[..0]) == uses;
    for i := 0 to |targets|
      invariant Groups(r, uses + UsesOf(kind, node, targets[..i]))
    {
      var use := Use(kind, node, targets[i]);
      ghost var done := uses + UsesOf(kind, node, targets[..i]);
      assert uses + UsesOf(kind, node, targets[..i + 1]) == done + [use];
      GroupsExtend(r, done, use);
      var pair := Ends(use);
      r := r[pair := (if pair in r then r[pair] else []) + [use]];
    }
    assert targets[..|targets|] == targets;
  }

  method Collect(items: seq<Item>) returns (stored: map<Pair, seq<Use>>, symmetric: map<Pair, seq<Use>>)
    ensures Groups(stored, Directed(items)) && Groups(symmetric, Related(items))
  {
    stored, symmetric := map[], map[];
    for i := 0 to |items|
      invariant Groups(stored, Directed(items[..i])) && Groups(symmetric, Related(items[..i]))
    {
      var item := items[i];
      ghost var directed := Directed(items[..i]);
      assert items[..i + 1][..i] == items[..i];
      stored := AddUses(stored, BlockedBy, item.key, item.blockedBy, directed);
      directed := directed + UsesOf(BlockedBy, item.key, item.blockedBy);
      stored := AddUses(stored, SequenceAfter, item.key, item.sequenceAfter, directed);
      directed := directed + UsesOf(SequenceAfter, item.key, item.sequenceAfter);
      stored := AddUses(stored, DecisionRequired, item.key, item.decisionRequired, directed);
      directed := directed + UsesOf(DecisionRequired, item.key, item.decisionRequired);
      stored := AddUses(stored, GovernedBy, item.key, item.decisions, directed);
      assert Directed(items[..i + 1]) == directed + UsesOf(GovernedBy, item.key, item.decisions);
      symmetric := AddUses(symmetric, RelatedTo, item.key, item.relatedTo, Related(items[..i]));
    }
    assert items[..|items|] == items;
  }

  // ----- the report -----

  ghost predicate Crowded(items: seq<Item>, pair: Pair) {
    |OnPair(Directed(items), pair)| > 1
  }

  /** A directed use on the same two items as a `related_to` pair. */
  ghost predicate Overlaps(items: seq<Item>, pair: Pair, use: Use) {
    use in Directed(items) && Unordered(Ends(use)) == pair && OnPair(Related(items), pair) != []
  }

  ghost predicate CollisionFree(items: seq<Item>) {
    && (forall pair :: !Crowded(items, pair))
    && (forall pair, use :: !Overlaps(items, pair, use))
  }

  predicate PairLe(a: Pair, b: Pair) {
    if a.0 == b.0 then TextLe(a.1, b.1) else TextLe(a.0, b.0)
  }

  lemma PairOrder()
    ensures TotalOrder(PairLe)
  {
    TextOrder();
  }

  /** One of the uses belongs to the node. */
  ghost predicate Blames(uses: seq<Use>, node: string) {
    exists use :: use in uses && use.node == node
  }

  method Blame(pair: Pair, uses: seq<Use>) returns (issues: seq<Issue>)
    ensures forall issue :: issue in issues <==> issue.pair == pair && Blames(uses, issue.node)
  {
    issues := [];
    for i := 0 to |uses|
      invariant forall issue :: issue in issues <==> issue.pair == pair && Blames(uses[..i], issue.node)
    {
      assert uses[..i + 1] == uses[..i] + [uses[i]];
      issues := issues + [Issue(pair, uses[i].node)];
    }
    assert uses[..|uses|] == uses;
  }

  /** Every directed use whose endpoints, in either order, are the pair. */
  method DirectedUses(stored: map<Pair, seq<Use>>, pair: Pair, ghost items: seq<Item>) returns (uses: seq<Use>)
    requires Groups(stored, Directed(items))
    ensures forall use :: use in uses <==> use in Directed(items) && Unordered(Ends(use)) == pair
  {
    uses := [];
    var rest := stored.Keys;
    while rest != {}
      invariant rest <= stored.Keys
      invariant forall use :: use in uses <==>
        use in Directed(items) && Unordered(Ends(use)) == pair && Ends(use) in stored.Keys - rest
      decreases |rest|
    {
      var ends :| ends in rest;
      OnPairMembers(Directed(items), ends);
      if Unordered(ends) == pair {
        uses := uses + stored[ends];
      }
      rest := rest - {ends};
    }
    forall use | use in Directed(items) ensures Ends(use) in stored {
      OnPairMembers(Directed(items), Ends(use));
    }
  }

  /** An issue raised by the first of the two scans. */
  ghost predicate CrowdedIssue(items: seq<Item>, issue: Issue) {
    Crowded(items, issue.pair) && exists use :: use in OnPair(Directed(items), issue.pair) && use.node == issue.node
  }

  /** An issue raised by the second scan. */
  ghost predicate OverlapIssue(items: seq<Item>, issue: Issue) {
    || (exists use :: Overlaps(items, issue.pair, use) && use.node == issue.node)
    || (exists use, related :: Overlaps(items, issue.pair, use) && related in OnPair(Related(items), issue.pair)
                               && related.node == issue.node)
  }

  ghost predicate Reported(items: seq<Item>, issue: Issue) {
    CrowdedIssue(items, issue) || OverlapIssue(items, issue)
  }

  method CrowdedIssues(stored: map<Pair, seq<Use>>, ghost items: seq<Item>) returns (issues: seq<Issue>)
    requires Groups(stored, Directed(items))
    ensures forall issue :: issue in issues <==> CrowdedIssue(items, issue)
  {
    hide Directed, OnPair, CrowdedIssue, Crowded, Ends, Blames, PairLe, TotalOrder, Ascending;
    PairOrder();
    var pairs := SortSet(stored.Keys, PairLe);
    issues := [];
    for i := 0 to |pairs|
      invariant forall issue :: issue in issues <==> issue.pair in pairs[..i] && CrowdedIssue(items, issue)
    {
      assert pairs[..i + 1] == pairs[..i] + [pairs[i]];
      CrowdedBlamed(items, pairs[i]);
      if |stored[pairs[i]]| > 1 {
        var blamed := Blame(pairs[i], stored[pairs[i]]);
        issues := issues + blamed;
      }
    }
    assert pairs[..|pairs|] == pairs;
    forall issue | CrowdedIssue(items, issue) ensures issue.pair in pairs {
      CrowdedStored(items, issue);
    }
  }

  lemma CrowdedStored(items: seq<Item>, issue: Issue)
    requires CrowdedIssue(items, issue)
    ensures OnPair(Directed(items), issue.pair) != []
  {
  }

  lemma CrowdedBlamed(items: seq<Item>, pair: Pair)
    ensures forall issue: Issue :: issue.pair == pair ==>
      (CrowdedIssue(items, issue) <==>
         |OnPair(Directed(items), pair)| > 1 && Blames(OnPair(Directed(items), pair), issue.node))
  {
    hide Directed, OnPair, Ends;
  }

  lemma OverlapBlamed(items: seq<Item>, pair: Pair, directed: seq<Use>)
    requires OnPair(Related(items), pair) != []
    requires forall use :: use in directed <==> use in Directed(items) && Unordered(Ends(use)) == pair
    ensures forall issue: Issue :: issue.pair == pair ==>
      (OverlapIssue(items, issue) <==>
         directed != [] && Blames(OnPair(Related(items), pair) + directed, issue.node))
  {
    hide Directed, Related, OnPair, Unordered, Ends;
    assert forall use :: use in directed <==> Overlaps(items, pair, use);
    if directed != [] {
      assert Overlaps(items, pair, directed[0]);
    }
  }

  /** Only a declared pair can be reported by the second scan. */
  lemma OverlapDeclared(items: seq<Item>, issue: Issue)
    requires OverlapIssue(items, issue)
    ensures OnPair(Related(items), issue.pair) != []
  {
  }

  method OverlapIssues(stored: map<Pair, seq<Use>>, symmetric: map<Pair, seq<Use>>, ghost items: seq<Item>)
    returns (issues: seq<Issue>)
    requires Groups(stored, Directed(items)) && Groups(symmetric, Related(items))
    ensures forall issue :: issue in issues <==> OverlapIssue(items, issue)
  {
    hide Directed, Related, OnPair, Unordered, OverlapIssue, Ends, Blames, PairLe, TotalOrder, Ascending;
    PairOrder();
    var pairs := SortSet(symmetric.Keys, PairLe);
    issues := [];
    for i := 0 to |pairs|
      invariant forall issue :: issue in issues <==> issue.pair in pairs[..i] && OverlapIssue(items, issue)
    {
      assert pairs[..i + 1] == pairs[..i] + [pairs[i]];
      var directed := DirectedUses(stored, pairs[i], items);
      OverlapBlamed(items, pairs[i], directed);
      if directed != [] {
        var blamed := Blame(pairs[i], symmetric[pairs[i]] + directed);
        issues := issues + blamed;
      }
    }
    assert pairs[..|pairs|] == pairs;
    forall issue | OverlapIssue(items, issue) ensures issue.pair in pairs {
      OverlapDeclared(items, issue);
    }
  }

  /** The collision part of `validate_plan`. */
  method CollisionIssues(items: seq<Item>) returns (issues: seq<Issue>)
    ensures forall issue :: issue in issues <==> Reported(items, issue)
  {
    var stored, symmetric := Collect(items);
    var crowded := CrowdedIssues(stored, items);
    var overlapping := OverlapIssues(stored, symmetric, items);
    return crowded + overlapping;
  }

  /** The report is empty exactly when no pair is shared. */
  lemma SilentIffCollisionFree(items: seq<Item>)
    ensures (forall issue :: !Reported(items, issue)) <==> CollisionFree(items)
  {
    if pair :| Crowded(items, pair) {
      var use := OnPair(Directed(items), pair)[0];
      assert Reported(items, Issue(pair, use.node));
    }
    if pair, use :| Overlaps(items, pair, use) {
      assert Reported(items, Issue(pair, use.node));
    }
  }

  // ----- the native endpoints -----

  datatype NativeKind = Blocks | Follows | Requires | Relates

  datatype Native = Native(from: int, to: int, kind: NativeKind)

  /** `_project_relation`: the native relation between two numbered work packages. */
  function Project(kind: RelationKind, source: int, target: int): Native {
    match kind
    case BlockedBy => Native(target, source, Blocks)
    case SequenceAfter => Native(source, target, Follows)
    case DecisionRequired => Native(source, target, Requires)
    case GovernedBy => Native(source, target, Relates)
    case RelatedTo => if source <= target then Native(source, target, Relates) else Native(target, source, Relates)
  }

  /** Every managed relation of the plan, with its owner, in the form of a use. */
  ghost function Managed(plan: Plan): set<Use> {
    set item, relation | item in plan.items && relation in DesiredRelations(plan, item)
      :: Use(relation.kind, item.key, relation.target.key)
  }

  function Mentioned(items: seq<Item>): set<string> {
    Keys(items) + set item, key | item in items && key in References(item) :: key
  }

  ghost predicate Numbering(items: seq<Item>, id: map<string, int>) {
    Mentioned(items) <= id.Keys && forall a, b :: a in id && b in id && id[a] == id[b] ==> a == b
  }

  ghost predicate SameEnds(id: map<string, int>, a: Use, b: Use) {
    && a.node in id && a.target in id && b.node in id && b.target in id
    && var p, q := Project(a.kind, id[a.node], id[a.target]), Project(b.kind, id[b.node], id[b.target]);
       p.from == q.from && p.to == q.to
  }

  ghost predicate Apart(plan: Plan, id: map<string, int>) {
    forall a, b :: a in Managed(plan) && b in Managed(plan) && SameEnds(id, a, b) ==> a == b
  }

  ghost predicate RelatedKnown(plan: Plan) {
    forall item :: item in plan.items ==> forall key :: key in item.relatedTo ==> key in Keys(plan.items)
  }

  // ----- exactness -----

  lemma {:induction false} DirectedMembers(items: seq<Item>)
    ensures forall use :: use in Directed(items) <==> exists item :: item in items && use in DirectedOf(item)
  {
    if items != [] {
      var front, last := items[..|items| - 1], items[|items| - 1];
      DirectedMembers(front);
      assert items == front + [last];
      forall use ensures use in Directed(items) <==> exists item :: item in items && use in DirectedOf(item) {
        if use in DirectedOf(last) {
          assert last in items;
        }
      }
    }
  }

  lemma {:induction false} RelatedMembers(items: seq<Item>)
    ensures forall use :: use in Related(items) <==>
      exists item :: item in items && use.kind == RelatedTo && use.node == item.key && use.target in item.relatedTo
  {
    if items != [] {
      var front, last := items[..|items| - 1], items[|items| - 1];
      RelatedMembers(front);
      assert items == front + [last];
      UsesOfMembers(RelatedTo, last.key, last.relatedTo);
    }
  }

  lemma UsesOfMembers(kind: RelationKind, node: string, targets: seq<string>)
    ensures forall use :: use in UsesOf(kind, node, targets) <==> use.kind == kind && use.node == node && use.target in targets
  {
    forall use: Use | use.kind == kind && use.node == node && use.target in targets ensures use in UsesOf(kind, node, targets) {
      var i :| 0 <= i < |targets| && targets[i] == use.target;
      assert UsesOf(kind, node, targets)[i] == use;
    }
  }

  lemma DirectedOfMembers(item: Item)
    ensures forall use :: use in DirectedOf(item) <==>
      use.node == item.key && use.target in TargetsOf(item, use.kind) && use.kind != RelatedTo
  {
    UsesOfMembers(BlockedBy, item.key, item.blockedBy);
    UsesOfMembers(SequenceAfter, item.key, item.sequenceAfter);
    UsesOfMembers(DecisionRequired, item.key, item.decisionRequired);
    UsesOfMembers(GovernedBy, item.key, item.decisions);
  }

  function TargetsOf(item: Item, kind: RelationKind): seq<string> {
    match kind
    case BlockedBy => item.blockedBy
    case SequenceAfter => item.sequenceAfter
    case DecisionRequired => item.decisionRequired
    case GovernedBy => item.decisions
    case RelatedTo => item.relatedTo
  }

  lemma DesiredDirected(plan: Plan, item: Item, kind: RelationKind, key: string)
    requires kind != RelatedTo
    ensures Relation(kind, Identity(plan.id, key)) in DesiredRelations(plan, item) <==> key in TargetsOf(item, kind)
  {
  }

  lemma DesiredRelated(plan: Plan, item: Item, key: string)
    ensures Relation(RelatedTo, Identity(plan.id, key)) in DesiredRelations(plan, item)
        <==> (item.key, key) in RelatedPairs(plan.items)
  {
  }

  lemma DesiredInPlan(plan: Plan, item: Item, relation: Relation)
    requires relation in DesiredRelations(plan, item)
    ensures relation == Relation(relation.kind, Identity(plan.id, relation.target.key))
  {
  }

  /** The relation of a managed use, and the item that owns it. */
  ghost predicate Owner(plan: Plan, item: Item, use: Use) {
    && item in plan.items && item.key == use.node
    && Relation(use.kind, Identity(plan.id, use.target)) in DesiredRelations(plan, item)
  }

  lemma ManagedOwner(plan: Plan, use: Use)
    ensures use in Managed(plan) <==> exists item :: Owner(plan, item, use)
  {
    hide DesiredRelations;
    if use in Managed(plan) {
      var item, relation :| item in plan.items && relation in DesiredRelations(plan, item)
                            && use == Use(relation.kind, item.key, relation.target.key);
      DesiredInPlan(plan, item, relation);
      assert Owner(plan, item, use);
    }
  }

  /** A directed managed relation is exactly a directed use. */
  lemma DirectedManaged(plan: Plan, use: Use)
    requires use.kind != RelatedTo
    ensures use in Managed(plan) <==> use in Directed(plan.items)
  {
    hide DesiredRelations, Managed, Directed, DirectedOf;
    ManagedOwner(plan, use);
    DirectedMembers(plan.items);
    forall item ensures use in DirectedOf(item) <==> use.node == item.key && use.target in TargetsOf(item, use.kind) {
      DirectedOfMembers(item);
    }
    forall item ensures Owner(plan, item, use) <==> item in plan.items && use in DirectedOf(item) {
      DesiredDirected(plan, item, use.kind, use.target);
    }
  }

  lemma RelatedDeclared(items: seq<Item>, pair: Pair)
    ensures pair in RelatedPairs(items) <==> OnPair(Related(items), pair) != []
  {
    OnPairMembers(Related(items), pair);
    RelatedMembers(items);
    hide Related;
    if pair in RelatedPairs(items) {
      var item, target :| item in items && target in item.relatedTo && OrderedPair(item.key, target) == pair;
      assert Use(RelatedTo, item.key, target) in OnPair(Related(items), pair);
    }
    if OnPair(Related(items), pair) != [] {
      var found := OnPair(Related(items), pair)[0];
      assert found in OnPair(Related(items), pair);
      assert found in Related(items);
    }
  }

  /** A `related_to` managed relation is exactly a declared pair whose lower key is an item, which owns it. */
  lemma RelatedManaged(plan: Plan, use: Use)
    requires use.kind == RelatedTo
    ensures use in Managed(plan) <==>
      use.node in Keys(plan.items) && OnPair(Related(plan.items), (use.node, use.target)) != []
  {
    hide DesiredRelations, Managed, Related, OnPair;
    var pair := (use.node, use.target);
    RelatedDeclared(plan.items, pair);
    ManagedOwner(plan, use);
    forall item ensures Owner(plan, item, use) <==> item in plan.items && item.key == use.node && pair in RelatedPairs(plan.items) {
      DesiredRelated(plan, item, use.target);
    }
    if use.node in Keys(plan.items) && pair in RelatedPairs(plan.items) {
      var owner :| owner in plan.items && owner.key == use.node;
      assert Owner(plan, owner, use);
    }
  }

  /** Under an injective numbering equal native endpoints mean equal key endpoints, up to the order of a symmetric pair. */
  lemma EndsDetermined(items: seq<Item>, id: map<string, int>, a: Use, b: Use)
    requires Numbering(items, id) && SameEnds(id, a, b)
    ensures a.kind != RelatedTo && b.kind != RelatedTo ==> Ends(a) == Ends(b)
    ensures Unordered(Ends(a)) == Unordered(Ends(b))
  {
    hide OrderedPair, Mentioned;
    assert (a.node == b.node && a.target == b.target) || (a.node == b.target && a.target == b.node);
    PairSymmetric(a.node, a.target);
    PairSymmetric(b.node, b.target);
    PairIdempotent(a.node, a.target);
    PairIdempotent(b.node, b.target);
  }

  lemma PairSymmetric(a: string, b: string)
    ensures OrderedPair(a, b) == OrderedPair(b, a)
  {
    TextLeTotal(a, b);
    if TextLe(a, b) && TextLe(b, a) {
      TextLeAntisymmetric(a, b);
    }
  }

  lemma PairIdempotent(a: string, b: string)
    ensures Unordered(OrderedPair(a, b)) == OrderedPair(a, b)
  {
    TextLeTotal(a, b);
  }

  lemma ManagedMentioned(plan: Plan, use: Use)
    requires use in Managed(plan)
    ensures use.node in Mentioned(plan.items) && use.target in Mentioned(plan.items)
  {
    hide DesiredRelations, Managed;
    ManagedOwner(plan, use);
    var item :| Owner(plan, item, use);
    if use.kind == RelatedTo {
      DesiredRelated(plan, item, use.target);
      var source, target :| source in plan.items && target in source.relatedTo
                            && OrderedPair(source.key, target) == (use.node, use.target);
      assert target in References(source);
    } else {
      DesiredDirected(plan, item, use.kind, use.target);
      assert use.target in References(item);
    }
  }

  /** No plan without a reported collision can collide, whatever its references. */
  lemma CollisionFreeKeepsApart(plan: Plan, id: map<string, int>)
    requires CollisionFree(plan.items) && Numbering(plan.items, id)
    ensures Apart(plan, id)
  {
    forall a, b | a in Managed(plan) && b in Managed(plan) && SameEnds(id, a, b) ensures a == b {
      EndsDetermined(plan.items, id, a, b);
      if a.kind != RelatedTo && b.kind != RelatedTo {
        SameUse(plan, a, b);
      } else if a.kind == RelatedTo && b.kind == RelatedTo {
        RelatedManaged(plan, a);
        RelatedManaged(plan, b);
        OnPairMembers(Related(plan.items), (a.node, a.target));
        OnPairMembers(Related(plan.items), (b.node, b.target));
        RelatedLower(plan, a);
        RelatedLower(plan, b);
      } else {
        MixedOverlap(plan, if a.kind == RelatedTo then a else b, if a.kind == RelatedTo then b else a);
      }
    }
  }

  lemma RelatedLower(plan: Plan, use: Use)
    requires use in Managed(plan) && use.kind == RelatedTo
    ensures Unordered(Ends(use)) == Ends(use) == (use.node, use.target)
  {
    hide Managed, Related, OnPair;
    RelatedManaged(plan, use);
    RelatedDeclared(plan.items, (use.node, use.target));
    var item, target :| item in plan.items && target in item.relatedTo
                        && OrderedPair(item.key, target) == (use.node, use.target);
    TextLeTotal(item.key, target);
    if TextLe(use.node, use.target) && TextLe(use.target, use.node) {
      TextLeAntisymmetric(use.node, use.target);
    }
  }

  lemma CrowdedBy(uses: seq<Use>, a: Use, b: Use)
    requires a in uses && b in uses && a != b && Ends(a) == Ends(b)
    ensures |OnPair(uses, Ends(a))| > 1
  {
    OnPairMembers(uses, Ends(a));
  }

  lemma SameUse(plan: Plan, a: Use, b: Use)
    requires CollisionFree(plan.items) && a in Managed(plan) && b in Managed(plan)
    requires a.kind != RelatedTo && b.kind != RelatedTo && Ends(a) == Ends(b)
    ensures a == b
  {
    hide Managed, Directed, OnPair;
    DirectedManaged(plan, a);
    DirectedManaged(plan, b);
    assert !Crowded(plan.items, Ends(a));
    if a != b {
      CrowdedBy(Directed(plan.items), a, b);
    }
  }

  lemma MixedOverlap(plan: Plan, related: Use, directed: Use)
    requires related in Managed(plan) && directed in Managed(plan)
    requires related.kind == RelatedTo && directed.kind != RelatedTo
    requires Unordered(Ends(related)) == Unordered(Ends(directed))
    ensures Overlaps(plan.items, Ends(related), directed)
  {
    RelatedManaged(plan, related);
    DirectedManaged(plan, directed);
    RelatedLower(plan, related);
  }

  /** Any finite set of keys can be numbered injectively from `from` upwards. */
  lemma {:induction false} Number(keys: set<string>, from: int) returns (id: map<string, int>)
    ensures id.Keys == keys && forall a :: a in id ==> from <= id[a]
    ensures forall a, b :: a in id && b in id && id[a] == id[b] ==> a == b
    decreases |keys|
  {
    if keys == {} {
      id := map[];
    } else {
      var key :| key in keys;
      var rest := Number(keys - {key}, from + 1);
      id := rest[key := from];
    }
  }

  /** A numbering in which `low` comes before `high`. */
  lemma NumberBelow(items: seq<Item>, low: string, high: string) returns (id: map<string, int>)
    ensures Numbering(items, id) && low in id && high in id && id[low] <= id[high]
  {
    var rest := Number(Mentioned(items) - {low, high}, 2);
    id := rest[high := 1][low := if low == high then 1 else 0];
  }

  lemma CrowdedCollides(plan: Plan, pair: Pair) returns (id: map<string, int>)
    requires Crowded(plan.items, pair) && Distinct(Directed(plan.items))
    ensures Numbering(plan.items, id) && !Apart(plan, id)
  {
    hide Directed, OnPair, Managed, Numbering, Mentioned;
    var uses := Directed(plan.items);
    OnPairCrowded(uses, pair);
    var i, j :| 0 <= i < j < |uses| && Ends(uses[i]) == pair == Ends(uses[j]);
    DirectedNeverRelated(plan.items, uses[i]);
    DirectedNeverRelated(plan.items, uses[j]);
    DirectedManaged(plan, uses[i]);
    DirectedManaged(plan, uses[j]);
    id := NumberBelow(plan.items, pair.0, pair.1);
    ManagedMentioned(plan, uses[i]);
    ManagedMentioned(plan, uses[j]);
    NumberingCovers(plan.items, id);
    assert SameEnds(id, uses[i], uses[j]);
  }

  lemma DirectedNeverRelated(items: seq<Item>, use: Use)
    requires use in Directed(items)
    ensures use.kind != RelatedTo
  {
    DirectedMembers(items);
    var item :| item in items && use in DirectedOf(item);
    DirectedOfMembers(item);
  }

  lemma NumberingCovers(items: seq<Item>, id: map<string, int>)
    requires Numbering(items, id)
    ensures Mentioned(items) <= id.Keys
  {
  }

  lemma OverlapCollides(plan: Plan, pair: Pair, use: Use) returns (id: map<string, int>)
    requires Overlaps(plan.items, pair, use) && pair.0 in Keys(plan.items)
    ensures Numbering(plan.items, id) && !Apart(plan, id)
  {
    hide Managed, Directed, Related, OnPair, Numbering, Mentioned;
    var related := Use(RelatedTo, pair.0, pair.1);
    DirectedNeverRelated(plan.items, use);
    DirectedManaged(plan, use);
    RelatedManaged(plan, related);
    ManagedMentioned(plan, use);
    ManagedMentioned(plan, related);
    id := NumberBelow(plan.items, Ends(use).0, Ends(use).1);
    NumberingCovers(plan.items, id);
    assert SameEnds(id, use, related);
  }

  /** No directed reference shares its two items with a declared pair that no item owns. */
  ghost predicate OverlapsOwned(items: seq<Item>) {
    forall pair, use :: Overlaps(items, pair, use) ==> pair.0 in Keys(items)
  }

  /**
    The rule is exact for every plan: nothing is reported exactly when no directed reference is
    repeated, none overlaps a pair that no item owns, and, whatever distinct numbers the work
    packages receive, no two managed relations of the plan share their stored endpoints.
   */
  lemma CollisionCheckExact(plan: Plan)
    ensures CollisionFree(plan.items) <==>
      && Distinct(Directed(plan.items)) && OverlapsOwned(plan.items)
      && forall id :: Numbering(plan.items, id) ==> Apart(plan, id)
  {
    hide Apart, Numbering, Crowded, Overlaps, Directed, Keys;
    if CollisionFree(plan.items) {
      CollisionFreeNoRepeats(plan.items);
      forall id | Numbering(plan.items, id) ensures Apart(plan, id) {
        CollisionFreeKeepsApart(plan, id);
      }
    } else if Distinct(Directed(plan.items)) && OverlapsOwned(plan.items) {
      if pair :| Crowded(plan.items, pair) {
        var id := CrowdedCollides(plan, pair);
      } else {
        var pair, use :| Overlaps(plan.items, pair, use);
        var id := OverlapCollides(plan, pair, use);
      }
    }
  }

  /** With known `related_to` targets every declared pair is owned. */
  lemma KnownOverlapsOwned(plan: Plan)
    requires RelatedKnown(plan)
    ensures OverlapsOwned(plan.items)
  {
    hide Related, OnPair, Directed, Unordered;
    forall pair, use | Overlaps(plan.items, pair, use) ensures pair.0 in Keys(plan.items) {
      RelatedDeclared(plan.items, pair);
      var item, target :| item in plan.items && target in item.relatedTo && OrderedPair(item.key, target) == pair;
      assert target in Keys(plan.items) && item.key in Keys(plan.items);
    }
  }

  lemma OneItemUses(item: Item)
    ensures Directed([item]) == DirectedOf(item)
    ensures Related([item]) == UsesOf(RelatedTo, item.key, item.relatedTo)
  {
    assert [item][..0] == [];
  }

  lemma UnownedUses(z: Item)
    requires z == Item("z", "", None, [], ["a"], ["a"], [], [], [])
    ensures Directed([z]) == [Use(SequenceAfter, "z", "a")]
    ensures Related([z]) == [Use(RelatedTo, "z", "a")] && Ends(Related([z])[0]) == ("a", "z")
  {
    OneItemUses(z);
    hide Directed, Related;
    assert UsesOf(SequenceAfter, "z", ["a"]) == [Use(SequenceAfter, "z", "a")];
  }

  /**
    The rule can report too much: a pair whose lower key is no item is owned by nobody, yet it
    is reported beside a directed reference.
   */
  lemma UnownedPairReported() returns (plan: Plan)
    ensures Distinct(Directed(plan.items)) && !CollisionFree(plan.items) && forall id :: Apart(plan, id)
  {
    var z := Item("z", "", None, [], ["a"], ["a"], [], [], []);
    plan := Plan("p", 1, 7, None, None, [z]);
    UnownedUses(z);
    hide Directed, Related, Managed, OnPair;
    var use, declared := Use(SequenceAfter, "z", "a"), Use(RelatedTo, "z", "a");
    OnPairMembers(Related(plan.items), ("a", "z"));
    assert declared in OnPair(Related(plan.items), ("a", "z"));
    assert Overlaps(plan.items, ("a", "z"), use);
    forall other | other in Managed(plan) ensures other == use {
      OnlyDirectedManaged(plan, other);
    }
  }

  lemma OnlyDirectedManaged(plan: Plan, use: Use)
    requires plan.items != [] && plan.items == [plan.items[0]] && plan.items[0].key == "z"
    requires Related(plan.items) == [Use(RelatedTo, "z", "a")] && Ends(Related(plan.items)[0]) == ("a", "z")
    requires use in Managed(plan)
    ensures use in Directed(plan.items)
  {
    hide Directed, Related, Managed, OnPair, Ends;
    if use.kind == RelatedTo {
      RelatedManaged(plan, use);
      OnPairEmpty(Related(plan.items), (use.node, use.target));
    } else {
      DirectedManaged(plan, use);
    }
  }

  lemma CollisionFreeNoRepeats(items: seq<Item>)
    requires CollisionFree(items)
    ensures Distinct(Directed(items))
  {
    var uses := Directed(items);
    forall i, j | 0 <= i < j < |uses| ensures uses[i] != uses[j] {
      OnPairCrowded(uses, Ends(uses[i]));
      assert !Crowded(items, Ends(uses[i]));
    }
  }

  /** Duplicate-free lists of uniquely named items repeat no directed reference. */
  lemma {:induction false} DistinctListsNoRepeats(items: seq<Item>)
    requires UniqueKeys(items)
    requires forall item :: item in items ==>
      Distinct(item.blockedBy) && Distinct(item.sequenceAfter) && Distinct(item.decisionRequired) && Distinct(item.decisions)
    ensures Distinct(Directed(items))
  {
    if items != [] {
      var front, last := items[..|items| - 1], items[|items| - 1];
      DistinctListsNoRepeats(front);
      DirectedMembers(front);
      DirectedOfMembers(last);
      assert last in items;
      var a, b := Directed(front), DirectedOf(last);
      forall use | use in a ensures use.node != last.key {
        var item :| item in front && use in DirectedOf(item);
        DirectedOfMembers(item);
        var k :| 0 <= k < |front| && front[k] == item;
        assert items[k].key != items[|items| - 1].key;
      }
      assert Distinct(b) by { DistinctItemNoRepeats(last); }
      forall i, j | 0 <= i < j < |a + b| ensures (a + b)[i] != (a + b)[j] {
        if i < |a| <= j {
          assert a[i] in a && b[j - |a|] in b;
        }
      }
    }
  }

  lemma DistinctItemNoRepeats(item: Item)
    requires Distinct(item.blockedBy) && Distinct(item.sequenceAfter) && Distinct(item.decisionRequired) && Distinct(item.decisions)
    ensures Distinct(DirectedOf(item))
  {
  }

  /** The rule for plans whose reference lists hold no duplicate. */
  lemma CollisionCheckOnDistinctLists(plan: Plan)
    requires UniqueKeys(plan.items)
    requires forall item :: item in plan.items ==>
      Distinct(item.blockedBy) && Distinct(item.sequenceAfter) && Distinct(item.decisionRequired) && Distinct(item.decisions)
    ensures (forall issue :: !Reported(plan.items, issue)) <==>
      OverlapsOwned(plan.items) && forall id :: Numbering(plan.items, id) ==> Apart(plan, id)
  {
    SilentIffCollisionFree(plan.items);
    CollisionCheckExact(plan);
    DistinctListsNoRepeats(plan.items);
  }

  /** When moreover every `related_to` target is an item, the rule reports exactly the possible collisions. */
  lemma CollisionCheckOnKnownTargets(plan: Plan)
    requires UniqueKeys(plan.items) && RelatedKnown(plan)
    requires forall item :: item in plan.items ==>
      Distinct(item.blockedBy) && Distinct(item.sequenceAfter) && Distinct(item.decisionRequired) && Distinct(item.decisions)
    ensures (forall issue :: !Reported(plan.items, issue)) <==> forall id :: Numbering(plan.items, id) ==> Apart(plan, id)
  {
    CollisionCheckOnDistinctLists(plan);
    KnownOverlapsOwned(plan);
  }
}
