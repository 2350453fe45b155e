/** The structural rules of plan validation, and what a plan without issues guarantees. */
module Validation {
  import opened Basics
  import opened Ordering
  import opened Backlog
  import EndpointCollisions
  import CycleCheck

  datatype WorkType = Initiative | Epic | Story | Task | Decision | Investigation | Bug

  function Breadth(kind: WorkType): nat {
    match kind
    case Initiative => 0
    case Epic => 1
    case Story => 2
    case _ => 3
  }

  /** An item with the fields that only validation reads. A blank parent is `None`. */
  datatype Entry = Entry(item: Item, kind: WorkType, repository: string, integration: bool)

  datatype Field = ParentField | Related(kind: RelationKind)

  datatype Reference = Reference(field: Field, target: string)

  datatype Issue =
    | DuplicateKey(key: string)
    | RelationCollision(pair: (string, string), node: string)
    | DanglingReference(node: string, reference: Reference)
    | SelfReference(node: string, reference: Reference)
    | InvalidDecisionTarget(node: string, reference: Reference)
    | MeaninglessParent(node: string)
    | CrossRepositoryParent(node: string)
    | CrossRepositoryRelation(node: string, reference: Reference)
    | ParentCycle
    | DependencyCycle

  function Items(entries: seq<Entry>): seq<Item> {
    seq(|entries|, i requires 0 <= i < |entries| => entries[i].item)
  }

  function Known(entries: seq<Entry>): set<string> {
    set entry | entry in entries :: entry.item.key
  }

  /** The last entry of a key, as the `by_key` dictionary keeps it. */
  function Table(entries: seq<Entry>): (m: map<string, Entry>)
    ensures m.Keys == Known(entries)
    ensures forall key :: key in m ==> m[key] in entries && m[key].item.key == key
  {
    if entries == [] then map[] else
      var last := entries[|entries| - 1];
      assert entries == entries[..|entries| - 1] + [last];
      Table(entries[..|entries| - 1])[last.item.key := last]
  }

  function References(item: Item): seq<Reference> {
    (if item.parent.Some? then [Reference(ParentField, item.parent.value)] else [])
    + Through(BlockedBy, item.blockedBy)
    + Through(SequenceAfter, item.sequenceAfter)
    + Through(RelatedTo, item.relatedTo)
    + Through(DecisionRequired, item.decisionRequired)
    + Through(GovernedBy, item.decisions)
  }

  function Through(kind: RelationKind, targets: seq<string>): seq<Reference> {
    seq(|targets|, i requires 0 <= i < |targets| => Reference(Related(kind), targets[i]))
  }

  // ----- the rules, one issue at a time -----

  predicate NeedsDecision(field: Field) {
    field == Related(DecisionRequired) || field == Related(GovernedBy)
  }

  /** What one reference of one entry is blamed for. */
  predicate Faulty(table: map<string, Entry>, entry: Entry, reference: Reference, issue: Issue) {
    var node := entry.item.key;
    if reference.target !in table then issue == DanglingReference(node, reference)
    else
      var target := table[reference.target];
      || (reference.target == node && issue == SelfReference(node, reference))
      || (NeedsDecision(reference.field) && target.kind != Decision && issue == InvalidDecisionTarget(node, reference))
      || (reference.field.ParentField? && Breadth(target.kind) >= Breadth(entry.kind) && issue == MeaninglessParent(node))
      || (reference.field.ParentField? && target.repository != entry.repository && issue == CrossRepositoryParent(node))
      || (!reference.field.ParentField? && target.repository != entry.repository && !entry.integration
          && issue == CrossRepositoryRelation(node, reference))
  }

  ghost predicate Blamed(entries: seq<Entry>, issue: Issue) {
    exists entry, reference ::
      entry in entries && reference in References(entry.item) && Faulty(Table(entries), entry, reference, issue)
  }

  function ParentGraph(entries: seq<Entry>): CycleCheck.Graph {
    map key | key in Known(entries) ::
      var parent := Table(entries)[key].item.parent;
      if parent.Some? && parent.value in Known(entries) then {parent.value} else {}
  }

  function BlockerGraph(entries: seq<Entry>): CycleCheck.Graph {
    map key | key in Known(entries) ::
      set target | target in Table(entries)[key].item.blockedBy && target in Known(entries)
  }

  ghost predicate Duplicated(entries: seq<Entry>, key: string) {
    exists i, j :: 0 <= i < j < |entries| && entries[i].item.key == key == entries[j].item.key
  }

  ghost predicate Raised(entries: seq<Entry>, issue: Issue) {
    match issue
    case DuplicateKey(key) => Duplicated(entries, key)
    case RelationCollision(pair, node) =>
      EndpointCollisions.Reported(Items(entries), EndpointCollisions.Issue(pair, node))
    case ParentCycle => CycleCheck.Cyclic(ParentGraph(entries))
    case DependencyCycle => CycleCheck.Cyclic(BlockerGraph(entries))
    case _ => Blamed(entries, issue)
  }

  // ----- the validator -----

  method RepeatedKeys(entries: seq<Entry>) returns (repeated: set<string>)
    ensures forall key :: key in repeated <==> Duplicated(entries, key)
  {
    hide Duplicated;
    var seen: set<string> := {};
    repeated := {};
    NothingDuplicated();
    for i := 0 to |entries|
      invariant seen == Known(entries[..i])
      invariant forall key :: key in repeated <==> Duplicated(entries[..i], key)
    {
      assert entries[..i + 1] == entries[..i] + [entries[i]];
      var key := entries[i].item.key;
      DuplicatedStep(entries, i);
      if key in seen {
        repeated := repeated + {key};
      }
      seen := seen + {key};
    }
    assert entries[..|entries|] == entries;
  }

  lemma NothingDuplicated()
    ensures forall key :: !Duplicated([], key)
  {
  }

  method DuplicateKeys(entries: seq<Entry>) returns (issues: seq<Issue>)
    ensures forall issue :: issue in issues <==> issue.DuplicateKey? && Duplicated(entries, issue.key)
  {
    hide Duplicated;
    var repeated := RepeatedKeys(entries);
    TextOrder();
    hide TextLe;
    var keys := SortSet(repeated, TextLe);
    issues := [];
    for i := 0 to |keys|
      invariant forall issue :: issue in issues <==> issue.DuplicateKey? && issue.key in keys[..i]
    {
      assert keys[..i + 1] == keys[..i] + [keys[i]];
      issues := issues + [DuplicateKey(keys[i])];
    }
    assert keys[..|keys|] == keys;
  }

  lemma DuplicatedStep(entries: seq<Entry>, n: nat)
    requires n < |entries|
    ensures forall key :: Duplicated(entries[..n + 1], key) <==>
      Duplicated(entries[..n], key) || (key == entries[n].item.key && key in Known(entries[..n]))
  {
    var front, more := entries[..n], entries[..n + 1];
    assert more == front + [entries[n]];
    forall key ensures Duplicated(more, key) <==> Duplicated(front, key) || (key == entries[n].item.key && key in Known(front)) {
      if Duplicated(more, key) {
        var i, j :| 0 <= i < j < |more| && more[i].item.key == key == more[j].item.key;
        assert front[i] in front;
        assert j < n ==> front[i].item.key == key == front[j].item.key;
      }
      if Duplicated(front, key) {
        var i, j :| 0 <= i < j < |front| && front[i].item.key == key == front[j].item.key;
        assert more[i].item.key == key == more[j].item.key;
      }
      if key == entries[n].item.key && key in Known(front) {
        var i :| 0 <= i < n && front[i].item.key == key;
        assert more[i].item.key == key == more[n].item.key;
      }
    }
  }

  method CheckReference(table: map<string, Entry>, entry: Entry, reference: Reference) returns (issues: seq<Issue>)
    ensures forall issue :: issue in issues <==> Faulty(table, entry, reference, issue)
  {
    var node := entry.item.key;
    if reference.target !in table {
      return [DanglingReference(node, reference)];
    }
    var target := table[reference.target];
    issues := [];
    if reference.target == node {
      issues := issues + [SelfReference(node, reference)];
    }
    if NeedsDecision(reference.field) && target.kind != Decision {
      issues := issues + [InvalidDecisionTarget(node, reference)];
    }
    if reference.field.ParentField? {
      if Breadth(target.kind) >= Breadth(entry.kind) {
        issues := issues + [MeaninglessParent(node)];
      }
      if target.repository != entry.repository {
        issues := issues + [CrossRepositoryParent(node)];
      }
    } else if target.repository != entry.repository && !entry.integration {
      issues := issues + [CrossRepositoryRelation(node, reference)];
    }
  }

  method CheckEntry(table: map<string, Entry>, entry: Entry) returns (issues: seq<Issue>)
    ensures forall issue :: issue in issues <==>
      exists reference :: reference in References(entry.item) && Faulty(table, entry, reference, issue)
  {
    hide Faulty, References;
    var references := References(entry.item);
    issues := [];
    for i := 0 to |references|
      invariant forall issue :: issue in issues <==>
        exists reference :: reference in references[..i] && Faulty(table, entry, reference, issue)
    {
      assert references[..i + 1] == references[..i] + [references[i]];
      var more := CheckReference(table, entry, references[i]);
      issues := issues + more;
    }
    assert references[..|references|] == references;
  }

  ghost predicate BlamedAmong(table: map<string, Entry>, entries: seq<Entry>, issue: Issue) {
    exists entry, reference ::
      entry in entries && reference in References(entry.item) && Faulty(table, entry, reference, issue)
  }

  method CheckReferences(entries: seq<Entry>) returns (issues: seq<Issue>)
    ensures forall issue :: issue in issues <==> Blamed(entries, issue)
  {
    hide Faulty, References, Table;
    var table := Table(entries);
    issues := [];
    for i := 0 to |entries|
      invariant forall issue :: issue in issues <==> BlamedAmong(table, entries[..i], issue)
    {
      assert entries[..i + 1] == entries[..i] + [entries[i]];
      var more := CheckEntry(table, entries[i]);
      issues := issues + more;
    }
    assert entries[..|entries|] == entries;
  }

  lemma GraphsClosed(entries: seq<Entry>)
    ensures CycleCheck.Closed(ParentGraph(entries)) && CycleCheck.Closed(BlockerGraph(entries))
  {
  }

  method Collisions(entries: seq<Entry>) returns (issues: seq<Issue>)
    ensures forall issue :: issue in issues <==>
      issue.RelationCollision?
      && EndpointCollisions.Reported(Items(entries), EndpointCollisions.Issue(issue.pair, issue.node))
  {
    hide EndpointCollisions.Reported;
    var found := EndpointCollisions.CollisionIssues(Items(entries));
    issues := [];
    for i := 0 to |found|
      invariant forall issue :: issue in issues <==>
        issue.RelationCollision? && EndpointCollisions.Issue(issue.pair, issue.node) in found[..i]
    {
      assert found[..i + 1] == found[..i] + [found[i]];
      issues := issues + [RelationCollision(found[i].pair, found[i].node)];
    }
    assert found[..|found|] == found;
  }

  /** The structural part of `validate_plan`: exactly the raised issues are listed. */
  method ValidatePlan(entries: seq<Entry>) returns (issues: seq<Issue>)
    ensures forall issue :: issue in issues <==> Raised(entries, issue)
  {
    hide EndpointCollisions.Reported, CycleCheck.Cyclic, Duplicated, ParentGraph, BlockerGraph, Faulty, References;
    var duplicates := DuplicateKeys(entries);
    var collisions := Collisions(entries);
    var faults := CheckReferences(entries);
    GraphsClosed(entries);
    var parents := CycleCheck.HasCycle(ParentGraph(entries));
    var blockers := CycleCheck.HasCycle(BlockerGraph(entries));
    issues := duplicates + collisions + faults
      + (if parents then [ParentCycle] else []) + (if blockers then [DependencyCycle] else []);
    BlamedKinds(entries);
  }

  lemma BlamedKinds(entries: seq<Entry>)
    ensures forall issue :: Blamed(entries, issue) ==>
      !issue.DuplicateKey? && !issue.RelationCollision? && !issue.ParentCycle? && !issue.DependencyCycle?
  {
  }

  // ----- what a plan without issues guarantees -----

  ghost predicate Clean(entries: seq<Entry>) {
    forall issue :: !Raised(entries, issue)
  }

  ghost predicate Chain(entries: seq<Entry>, path: seq<string>) {
    && (forall i :: 0 <= i < |path| ==> path[i] in Known(entries))
    && (forall i :: 0 <= i < |path| - 1 ==> Table(entries)[path[i]].item.parent == Some(path[i + 1]))
  }

  ghost predicate BlockedThrough(entries: seq<Entry>, path: seq<string>) {
    && (forall i :: 0 <= i < |path| ==> path[i] in Known(entries))
    && (forall i :: 0 <= i < |path| - 1 ==> path[i + 1] in Table(entries)[path[i]].item.blockedBy)
  }

  lemma CleanReference(entries: seq<Entry>, entry: Entry, reference: Reference)
    requires Clean(entries) && entry in entries && reference in References(entry.item)
    ensures reference.target in Known(entries) && reference.target != entry.item.key
    ensures NeedsDecision(reference.field) ==> Table(entries)[reference.target].kind == Decision
    ensures reference.field.ParentField? ==>
      Breadth(Table(entries)[reference.target].kind) < Breadth(entry.kind)
      && Table(entries)[reference.target].repository == entry.repository
    ensures Table(entries)[reference.target].repository == entry.repository || entry.integration
  {
    var node, table := entry.item.key, Table(entries);
    NotFaulty(entries, entry, reference, DanglingReference(node, reference));
    NotFaulty(entries, entry, reference, SelfReference(node, reference));
    NotFaulty(entries, entry, reference, InvalidDecisionTarget(node, reference));
    NotFaulty(entries, entry, reference, MeaninglessParent(node));
    NotFaulty(entries, entry, reference, CrossRepositoryParent(node));
    NotFaulty(entries, entry, reference, CrossRepositoryRelation(node, reference));
    hide Clean, References, Table;
  }

  lemma NotFaulty(entries: seq<Entry>, entry: Entry, reference: Reference, issue: Issue)
    requires Clean(entries) && entry in entries && reference in References(entry.item)
    requires !issue.DuplicateKey? && !issue.RelationCollision? && !issue.ParentCycle? && !issue.DependencyCycle?
    ensures !Faulty(Table(entries), entry, reference, issue)
  {
    hide Faulty, References;
    assert !Raised(entries, issue);
  }

  /** The plan contract every publication theorem starts from. */
  lemma CleanIsWellReferenced(entries: seq<Entry>, plan: Plan)
    requires Clean(entries) && plan.items == Items(entries)
    ensures WellReferenced(plan)
    ensures EndpointCollisions.RelatedKnown(plan)
  {
    forall i, j | 0 <= i < j < |plan.items| ensures plan.items[i].key != plan.items[j].key {
      assert !Raised(entries, DuplicateKey(entries[i].item.key));
      NotDuplicated(entries, i, j);
    }
    KnownItems(entries);
    forall item | item in plan.items
      ensures item.parent.Some? ==> item.parent.value in Keys(plan.items)
      ensures forall key | key in Backlog.References(item) :: key in Keys(plan.items)
    {
      var k :| 0 <= k < |entries| && entries[k].item == item;
      if item.parent.Some? {
        assert References(item)[0] == Reference(ParentField, item.parent.value);
        CleanReference(entries, entries[k], Reference(ParentField, item.parent.value));
      }
      forall key | key in Backlog.References(item) ensures key in Keys(plan.items) {
        var reference := ReferenceTo(item, key);
        CleanReference(entries, entries[k], reference);
      }
      assert forall key :: key in item.relatedTo ==> key in Backlog.References(item);
    }
  }

  lemma NotDuplicated(entries: seq<Entry>, i: nat, j: nat)
    requires i < j < |entries| && !Duplicated(entries, entries[i].item.key)
    ensures entries[i].item.key != entries[j].item.key
  {
  }

  lemma KnownItems(entries: seq<Entry>)
    ensures Known(entries) == Keys(Items(entries))
  {
    forall key | key in Known(entries) ensures key in Keys(Items(entries)) {
      var i :| 0 <= i < |entries| && entries[i].item.key == key;
      assert Items(entries)[i] in Items(entries);
    }
  }

  lemma ReferenceTo(item: Item, key: string) returns (reference: Reference)
    requires key in Backlog.References(item)
    ensures reference.target == key && reference in References(item)
  {
    if key in item.blockedBy {
      reference := ThroughMember(item, BlockedBy, item.blockedBy, key);
    } else if key in item.sequenceAfter {
      reference := ThroughMember(item, SequenceAfter, item.sequenceAfter, key);
    } else if key in item.relatedTo {
      reference := ThroughMember(item, RelatedTo, item.relatedTo, key);
    } else if key in item.decisionRequired {
      reference := ThroughMember(item, DecisionRequired, item.decisionRequired, key);
    } else {
      reference := ThroughMember(item, GovernedBy, item.decisions, key);
    }
  }

  lemma ThroughMember(item: Item, kind: RelationKind, targets: seq<string>, key: string) returns (reference: Reference)
    requires key in targets
    ensures reference == Reference(Related(kind), key) && reference in Through(kind, targets)
  {
    var i :| 0 <= i < |targets| && targets[i] == key;
    reference := Through(kind, targets)[i];
  }

  /** In a clean plan no chain of blockers ever returns to its start. */
  lemma BlockersAcyclic(entries: seq<Entry>, path: seq<string>)
    requires Clean(entries) && BlockedThrough(entries, path) && |path| >= 2
    ensures path[0] != path[|path| - 1]
  {
    assert !Raised(entries, DependencyCycle);
    assert path[0] == path[|path| - 1] ==> CycleCheck.Cycle(BlockerGraph(entries), path);
  }

  lemma {:induction false} ChainNarrows(entries: seq<Entry>, path: seq<string>, j: nat)
    requires forall issue :: Blamed(entries, issue) ==> !issue.MeaninglessParent?
    requires Chain(entries, path) && j < |path|
    ensures Breadth(Table(entries)[path[j]].kind) + j <= Breadth(Table(entries)[path[0]].kind)
  {
    if j > 0 {
      ChainNarrows(entries, path, j - 1);
      var entry := Table(entries)[path[j - 1]];
      assert entry.item.parent == Some(path[j - 1 + 1]);
      assert !Blamed(entries, MeaninglessParent(entry.item.key));
      hide Blamed;
      ParentNarrower(entries, entry, path[j]);
    }
  }

  lemma ParentNarrower(entries: seq<Entry>, entry: Entry, parent: string)
    requires entry in entries && entry.item.parent == Some(parent) && parent in Known(entries)
    requires !Blamed(entries, MeaninglessParent(entry.item.key))
    ensures Breadth(Table(entries)[parent].kind) < Breadth(entry.kind)
  {
    var reference := Reference(ParentField, parent);
    assert References(entry.item)[0] == reference;
    assert reference in References(entry.item);
    hide References;
    assert !Faulty(Table(entries), entry, reference, MeaninglessParent(entry.item.key));
  }

  /** Ancestor chains of a clean plan are no longer than the rank table. */
  lemma ParentChainBounded(entries: seq<Entry>, path: seq<string>)
    requires Clean(entries) && Chain(entries, path)
    ensures |path| <= 4
  {
    forall issue | Blamed(entries, issue) ensures !issue.MeaninglessParent? {
      assert !Raised(entries, issue);
    }
    if path != [] {
      ChainNarrows(entries, path, |path| - 1);
    }
  }

  /** A parent cycle is never the only complaint: some parent on it is not broader than its child. */
  lemma ParentCycleImpliesMeaninglessParent(entries: seq<Entry>)
    requires Raised(entries, ParentCycle)
    ensures exists issue :: Raised(entries, issue) && issue.MeaninglessParent?
  {
    var path :| CycleCheck.Cycle(ParentGraph(entries), path);
    forall i | 0 <= i < |path| - 1 ensures Table(entries)[path[i]].item.parent == Some(path[i + 1]) {
      assert path[i + 1] in ParentGraph(entries)[path[i]];
    }
    assert Chain(entries, path);
    if forall issue :: Blamed(entries, issue) ==> !issue.MeaninglessParent? {
      ChainNarrows(entries, path, |path| - 1);
    } else {
      var issue :| Blamed(entries, issue) && issue.MeaninglessParent?;
      assert Raised(entries, issue);
    }
  }

  /** Whatever numbers the work packages receive, the relations of a clean plan never share their endpoints. */
  lemma CleanRelationsStayApart(entries: seq<Entry>, plan: Plan, id: map<string, int>)
    requires Clean(entries) && plan.items == Items(entries) && EndpointCollisions.Numbering(plan.items, id)
    ensures EndpointCollisions.Apart(plan, id)
  {
    hide EndpointCollisions.Apart, EndpointCollisions.Numbering, EndpointCollisions.Reported;
    CleanIsWellReferenced(entries, plan);
    forall issue ensures !EndpointCollisions.Reported(plan.items, issue) {
      assert !Raised(entries, RelationCollision(issue.pair, issue.node));
    }
    EndpointCollisions.SilentIffCollisionFree(plan.items);
    EndpointCollisions.CollisionFreeKeepsApart(plan, id);
  }
}
