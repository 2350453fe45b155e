/** Every issue of plan validation by what is wrong with the plan, and when a plan has none. */
module ValidationRules {
  import opened Basics
  import opened Backlog
  import opened Validation
  import EndpointCollisions
  import CycleCheck

  /** The work types that may stand above one another. */
  predicate Broader(parent: WorkType, child: WorkType) {
    match child
    case Initiative => false
    case Epic => parent == Initiative
    case Story => parent == Initiative || parent == Epic
    case Task => parent == Initiative || parent == Epic || parent == Story
    case Decision => parent == Initiative || parent == Epic || parent == Story
    case Investigation => parent == Initiative || parent == Epic || parent == Story
    case Bug => parent == Initiative || parent == Epic || parent == Story
  }

  lemma BroaderExact(parent: WorkType, child: WorkType)
    ensures Broader(parent, child) <==> Breadth(parent) < Breadth(child)
  {
  }

  /** The entry stands in the plan with no later one of its key. */
  ghost predicate Latest(entries: seq<Entry>, entry: Entry) {
    exists i :: LatestAt(entries, entry, i)
  }

  ghost predicate LatestAt(entries: seq<Entry>, entry: Entry, i: int) {
    0 <= i < |entries| && entries[i] == entry && forall j :: i < j < |entries| ==> entries[j].item.key != entry.item.key
  }

  lemma {:induction false} TableLatest(entries: seq<Entry>, entry: Entry)
    ensures Latest(entries, entry) <==>
      entry.item.key in Table(entries) && Table(entries)[entry.item.key] == entry
  {
    if entries != [] {
      var n := |entries| - 1;
      var front, last := entries[..n], entries[n];
      assert entries == front + [last];
      TableLatest(front, entry);
      if last.item.key == entry.item.key {
        if i :| LatestAt(entries, entry, i) {
          assert i == n;
        }
        assert last == entry ==> LatestAt(entries, entry, n);
      } else {
        if i :| LatestAt(entries, entry, i) {
          assert LatestAt(front, entry, i);
        }
        if i :| LatestAt(front, entry, i) {
          assert LatestAt(entries, entry, i);
        }
      }
    }
  }

  function Named(item: Item, kind: RelationKind): seq<string> {
    match kind
    case BlockedBy => item.blockedBy
    case SequenceAfter => item.sequenceAfter
    case RelatedTo => item.relatedTo
    case DecisionRequired => item.decisionRequired
    case GovernedBy => item.decisions
  }

  /** The item names the target in that field. */
  predicate Mentions(item: Item, reference: Reference) {
    match reference.field
    case ParentField => item.parent == Some(reference.target)
    case Related(kind) => reference.target in Named(item, kind)
  }

  lemma ThroughExact(kind: RelationKind, targets: seq<string>, reference: Reference)
    ensures reference in Through(kind, targets) <==> reference.field == Related(kind) && reference.target in targets
  {
    if reference.field == Related(kind) && reference.target in targets {
      var i :| 0 <= i < |targets| && targets[i] == reference.target;
      assert Through(kind, targets)[i] == reference;
    }
  }

  lemma MentionsExact(item: Item, reference: Reference)
    ensures reference in Validation.References(item) <==> Mentions(item, reference)
  {
    hide Through;
    ThroughExact(BlockedBy, item.blockedBy, reference);
    ThroughExact(SequenceAfter, item.sequenceAfter, reference);
    ThroughExact(RelatedTo, item.relatedTo, reference);
    ThroughExact(DecisionRequired, item.decisionRequired, reference);
    ThroughExact(GovernedBy, item.decisions, reference);
    assert reference.field.ParentField? && item.parent == Some(reference.target) ==>
      reference == Reference(ParentField, item.parent.value);
  }

  // ----- each issue -----

  /** An entry with key `node` makes the reference. */
  ghost predicate Refers(entries: seq<Entry>, entry: Entry, node: string, reference: Reference) {
    entry in entries && entry.item.key == node && Mentions(entry.item, reference)
  }

  ghost predicate HasParent(entries: seq<Entry>, node: string, entry: Entry, parent: Entry) {
    entry in entries && entry.item.key == node && Latest(entries, parent) && entry.item.parent == Some(parent.item.key)
  }

  /** Along the path every step leads from an item to its known parent. */
  ghost predicate Climbs(entries: seq<Entry>, path: seq<string>) {
    forall i :: 0 <= i < |path| - 1 ==> ClimbsTo(entries, path[i], path[i + 1])
  }

  ghost predicate ClimbsTo(entries: seq<Entry>, child: string, parent: string) {
    parent in Known(entries) && exists entry :: Latest(entries, entry) && entry.item.key == child && entry.item.parent == Some(parent)
  }

  /** Along the path every step leads from an item to a known blocker. */
  ghost predicate Waits(entries: seq<Entry>, path: seq<string>) {
    forall i :: 0 <= i < |path| - 1 ==> WaitsFor(entries, path[i], path[i + 1])
  }

  ghost predicate WaitsFor(entries: seq<Entry>, item: string, blocker: string) {
    blocker in Known(entries) && exists entry :: Latest(entries, entry) && entry.item.key == item && blocker in entry.item.blockedBy
  }

  predicate Loop(path: seq<string>) {
    |path| >= 2 && path[0] == path[|path| - 1]
  }

  /** What is wrong with the plan when the issue is listed. */
  ghost predicate Deserved(entries: seq<Entry>, issue: Issue) {
    match issue
    case DuplicateKey(key) => exists i, j :: 0 <= i < j < |entries| && entries[i].item.key == key && entries[j].item.key == key
    case RelationCollision(pair, node) => EndpointCollisions.Reported(Items(entries), EndpointCollisions.Issue(pair, node))
    case DanglingReference(node, reference) =>
      && (forall other :: other in entries ==> other.item.key != reference.target)
      && exists entry :: Refers(entries, entry, node, reference)
    case SelfReference(node, reference) =>
      reference.target == node && exists entry :: Refers(entries, entry, node, reference)
    case InvalidDecisionTarget(node, reference) =>
      && (reference.field == Related(DecisionRequired) || reference.field == Related(GovernedBy))
      && exists entry, target :: Refers(entries, entry, node, reference) && Latest(entries, target)
                                 && target.item.key == reference.target && target.kind != Decision
    case MeaninglessParent(node) =>
      exists entry, parent :: HasParent(entries, node, entry, parent) && !Broader(parent.kind, entry.kind)
    case CrossRepositoryParent(node) =>
      exists entry, parent :: HasParent(entries, node, entry, parent) && parent.repository != entry.repository
    case CrossRepositoryRelation(node, reference) =>
      && reference.field.Related?
      && exists entry, target :: Refers(entries, entry, node, reference) && Latest(entries, target)
                                 && target.item.key == reference.target && target.repository != entry.repository
                                 && !entry.integration
    case ParentCycle => exists path :: Loop(path) && Climbs(entries, path)
    case DependencyCycle => exists path :: Loop(path) && Waits(entries, path)
  }

  /** One reference of one entry, with its target looked up. */
  lemma FaultyExact(entries: seq<Entry>, entry: Entry, reference: Reference, target: Entry)
    requires Latest(entries, target) && target.item.key == reference.target
    ensures reference.target in Table(entries) && Table(entries)[reference.target] == target
  {
    TableLatest(entries, target);
  }

  lemma LookedUp(entries: seq<Entry>, key: string)
    requires key in Table(entries)
    ensures Latest(entries, Table(entries)[key])
  {
    TableLatest(entries, Table(entries)[key]);
  }

  lemma BlamedIsDeserved(entries: seq<Entry>, issue: Issue)
    requires Blamed(entries, issue)
    ensures Deserved(entries, issue)
  {
    hide Latest, Table, Validation.References, Mentions, EndpointCollisions.Reported;
    var entry, reference :| entry in entries && reference in Validation.References(entry.item)
                            && Faulty(Table(entries), entry, reference, issue);
    MentionsExact(entry.item, reference);
    assert Refers(entries, entry, entry.item.key, reference);
    if reference.target in Table(entries) {
      LookedUp(entries, reference.target);
      BroaderExact(Table(entries)[reference.target].kind, entry.kind);
      ParentMention(entries, entry, reference);
    }
  }

  lemma ParentMention(entries: seq<Entry>, entry: Entry, reference: Reference)
    requires reference.target in Table(entries) && Latest(entries, Table(entries)[reference.target])
    requires entry in entries && Mentions(entry.item, reference)
    ensures reference.field.ParentField? ==> HasParent(entries, entry.item.key, entry, Table(entries)[reference.target])
  {
  }

  lemma DeservedIsBlamed(entries: seq<Entry>, issue: Issue)
    requires Deserved(entries, issue)
    requires !issue.DuplicateKey? && !issue.RelationCollision? && !issue.ParentCycle? && !issue.DependencyCycle?
    ensures Blamed(entries, issue)
  {
    hide Latest, Table, Validation.References, Mentions, EndpointCollisions.Reported, Faulty;
    match issue
    case DanglingReference(node, reference) =>
      var entry :| Refers(entries, entry, node, reference);
      BlameOne(entries, entry, reference, issue);
    case SelfReference(node, reference) =>
      var entry :| Refers(entries, entry, node, reference);
      LookedUp(entries, node);
      BlameTarget(entries, entry, reference, Table(entries)[node], issue);
    case InvalidDecisionTarget(node, reference) =>
      var entry, target :| Refers(entries, entry, node, reference) && Latest(entries, target)
                           && target.item.key == reference.target && target.kind != Decision;
      BlameTarget(entries, entry, reference, target, issue);
    case MeaninglessParent(node) =>
      var entry, parent :| HasParent(entries, node, entry, parent) && !Broader(parent.kind, entry.kind);
      ParentRefers(entries, node, entry, parent);
      BlameTarget(entries, entry, Reference(ParentField, parent.item.key), parent, issue);
    case CrossRepositoryParent(node) =>
      var entry, parent :| HasParent(entries, node, entry, parent) && parent.repository != entry.repository;
      ParentRefers(entries, node, entry, parent);
      BlameTarget(entries, entry, Reference(ParentField, parent.item.key), parent, issue);
    case CrossRepositoryRelation(node, reference) =>
      var entry, target :| Refers(entries, entry, node, reference) && Latest(entries, target)
                           && target.item.key == reference.target && target.repository != entry.repository
                           && !entry.integration;
      BlameTarget(entries, entry, reference, target, issue);
  }

  lemma ParentRefers(entries: seq<Entry>, node: string, entry: Entry, parent: Entry)
    requires HasParent(entries, node, entry, parent)
    ensures Refers(entries, entry, node, Reference(ParentField, parent.item.key)) && Latest(entries, parent)
  {
  }

  lemma BlameOne(entries: seq<Entry>, entry: Entry, reference: Reference, issue: Issue)
    requires Refers(entries, entry, entry.item.key, reference) && reference.target !in Known(entries)
    requires issue == DanglingReference(entry.item.key, reference)
    ensures Blamed(entries, issue)
  {
    hide Validation.References, Mentions;
    MentionsExact(entry.item, reference);
    assert Faulty(Table(entries), entry, reference, issue);
  }

  lemma BlameTarget(entries: seq<Entry>, entry: Entry, reference: Reference, target: Entry, issue: Issue)
    requires Refers(entries, entry, entry.item.key, reference)
    requires Latest(entries, target) && target.item.key == reference.target
    requires
      var node := entry.item.key;
      || (issue == SelfReference(node, reference) && reference.target == node)
      || (issue == InvalidDecisionTarget(node, reference) && NeedsDecision(reference.field) && target.kind != Decision)
      || (issue == MeaninglessParent(node) && reference.field.ParentField? && !Broader(target.kind, entry.kind))
      || (issue == CrossRepositoryParent(node) && reference.field.ParentField? && target.repository != entry.repository)
      || (issue == CrossRepositoryRelation(node, reference) && reference.field.Related?
          && target.repository != entry.repository && !entry.integration)
    ensures Blamed(entries, issue)
  {
    hide Validation.References, Mentions, Latest, Table;
    MentionsExact(entry.item, reference);
    FaultyExact(entries, entry, reference, target);
    BroaderExact(target.kind, entry.kind);
    assert Faulty(Table(entries), entry, reference, issue);
  }

  predicate Leads(edges: CycleCheck.Graph, a: string, b: string) {
    a in edges && b in edges[a]
  }

  lemma ParentStep(entries: seq<Entry>, child: string, parent: string)
    ensures ClimbsTo(entries, child, parent) <==> Leads(ParentGraph(entries), child, parent)
  {
    hide Table, Latest;
    if child in Known(entries) {
      LookedUp(entries, child);
    }
    forall entry | Latest(entries, entry) && entry.item.key == child
      ensures child in Known(entries) && Table(entries)[child] == entry
    {
      TableLatest(entries, entry);
    }
  }

  lemma BlockerStep(entries: seq<Entry>, item: string, blocker: string)
    ensures WaitsFor(entries, item, blocker) <==> Leads(BlockerGraph(entries), item, blocker)
  {
    hide Table, Latest;
    if item in Known(entries) {
      LookedUp(entries, item);
    }
    forall entry | Latest(entries, entry) && entry.item.key == item
      ensures item in Known(entries) && Table(entries)[item] == entry
    {
      TableLatest(entries, entry);
    }
  }

  lemma ParentLoop(entries: seq<Entry>, path: seq<string>)
    ensures Loop(path) && Climbs(entries, path) <==> CycleCheck.Cycle(ParentGraph(entries), path)
  {
    hide ClimbsTo, ParentGraph, Leads;
    forall i | 0 <= i < |path| - 1
      ensures ClimbsTo(entries, path[i], path[i + 1]) <==> Leads(ParentGraph(entries), path[i], path[i + 1])
    {
      ParentStep(entries, path[i], path[i + 1]);
    }
    LoopNodes(ParentGraph(entries), path);
  }

  lemma BlockerLoop(entries: seq<Entry>, path: seq<string>)
    ensures Loop(path) && Waits(entries, path) <==> CycleCheck.Cycle(BlockerGraph(entries), path)
  {
    hide WaitsFor, BlockerGraph, Leads;
    forall i | 0 <= i < |path| - 1
      ensures WaitsFor(entries, path[i], path[i + 1]) <==> Leads(BlockerGraph(entries), path[i], path[i + 1])
    {
      BlockerStep(entries, path[i], path[i + 1]);
    }
    LoopNodes(BlockerGraph(entries), path);
  }

  /** On a loop every node has an outgoing step, so the steps alone make it a cycle. */
  lemma LoopNodes(edges: CycleCheck.Graph, path: seq<string>)
    ensures CycleCheck.Cycle(edges, path) <==>
      Loop(path) && forall i :: 0 <= i < |path| - 1 ==> Leads(edges, path[i], path[i + 1])
  {
    if Loop(path) && forall i :: 0 <= i < |path| - 1 ==> Leads(edges, path[i], path[i + 1]) {
      forall i | 0 <= i < |path| ensures path[i] in edges {
        if i == |path| - 1 {
          assert path[i] == path[0];
          assert Leads(edges, path[0], path[1]);
        } else {
          assert Leads(edges, path[i], path[i + 1]);
        }
      }
    }
    if CycleCheck.Cycle(edges, path) {
      forall i | 0 <= i < |path| - 1 ensures Leads(edges, path[i], path[i + 1]) {
      }
    }
  }

  /** Every listed issue is deserved and every deserved one is listed. */
  lemma RaisedExact(entries: seq<Entry>, issue: Issue)
    ensures Raised(entries, issue) <==> Deserved(entries, issue)
  {
    hide Blamed, ParentGraph, BlockerGraph, EndpointCollisions.Reported, CycleCheck.Cycle, Climbs, Waits;
    if issue.ParentCycle? {
      forall path ensures Loop(path) && Climbs(entries, path) <==> CycleCheck.Cycle(ParentGraph(entries), path) {
        ParentLoop(entries, path);
      }
    } else if issue.DependencyCycle? {
      forall path ensures Loop(path) && Waits(entries, path) <==> CycleCheck.Cycle(BlockerGraph(entries), path) {
        BlockerLoop(entries, path);
      }
    } else if !issue.DuplicateKey? && !issue.RelationCollision? {
      if Blamed(entries, issue) {
        BlamedIsDeserved(entries, issue);
      }
      if Deserved(entries, issue) {
        DeservedIsBlamed(entries, issue);
      }
    }
  }

  // ----- a plan without issues -----

  /** The target exists, is another item, may be reached from this repository, and is a decision where one is needed. */
  ghost predicate Sound(entries: seq<Entry>, entry: Entry, reference: Reference) {
    exists target :: target in entries && target.item.key == reference.target && target.item.key != entry.item.key
      && (reference.field == Related(DecisionRequired) || reference.field == Related(GovernedBy) ==> target.kind == Decision)
      && (reference.field.ParentField? ==> Broader(target.kind, entry.kind))
      && (target.repository == entry.repository || (reference.field.Related? && entry.integration))
  }

  lemma LatestOfUnique(entries: seq<Entry>, entry: Entry)
    requires UniqueKeys(Items(entries)) && entry in entries
    ensures Latest(entries, entry)
  {
    var i :| 0 <= i < |entries| && entries[i] == entry;
    forall j | i < j < |entries| ensures entries[j].item.key != entry.item.key {
      assert Items(entries)[i].key != Items(entries)[j].key;
    }
    assert LatestAt(entries, entry, i);
  }

  lemma LatestListed(entries: seq<Entry>, entry: Entry)
    requires Latest(entries, entry)
    ensures entry in entries
  {
  }

  lemma SoundOfClean(entries: seq<Entry>, entry: Entry, reference: Reference)
    requires Clean(entries) && entry in entries && Mentions(entry.item, reference)
    ensures Sound(entries, entry, reference)
  {
    hide Clean, Mentions, Table, Validation.References;
    MentionsExact(entry.item, reference);
    CleanReference(entries, entry, reference);
    var target := Table(entries)[reference.target];
    BroaderExact(target.kind, entry.kind);
    assert target in entries && target.item.key == reference.target;
  }

  lemma SoundNotBlamed(entries: seq<Entry>, issue: Issue)
    requires UniqueKeys(Items(entries))
    requires forall entry, reference :: entry in entries && Mentions(entry.item, reference) ==> Sound(entries, entry, reference)
    ensures !Blamed(entries, issue)
  {
    hide UniqueKeys, Mentions, Table, Validation.References;
    if Blamed(entries, issue) {
      var entry, reference :| entry in entries && reference in Validation.References(entry.item)
                              && Faulty(Table(entries), entry, reference, issue);
      MentionsExact(entry.item, reference);
      var target :| target in entries && target.item.key == reference.target && target.item.key != entry.item.key
        && (reference.field == Related(DecisionRequired) || reference.field == Related(GovernedBy) ==> target.kind == Decision)
        && (reference.field.ParentField? ==> Broader(target.kind, entry.kind))
        && (target.repository == entry.repository || (reference.field.Related? && entry.integration));
      LatestOfUnique(entries, target);
      FaultyExact(entries, entry, reference, target);
      BroaderExact(target.kind, entry.kind);
      assert false;
    }
  }

  lemma UniqueIffUnduplicated(entries: seq<Entry>)
    ensures UniqueKeys(Items(entries)) <==> forall key :: !Duplicated(entries, key)
  {
    if UniqueKeys(Items(entries)) {
      forall key ensures !Duplicated(entries, key) {
        forall i, j | 0 <= i < j < |entries| ensures entries[i].item.key != entries[j].item.key {
          assert Items(entries)[i].key != Items(entries)[j].key;
        }
      }
    } else {
      var i, j :| 0 <= i < j < |Items(entries)| && Items(entries)[i].key == Items(entries)[j].key;
      assert entries[i].item.key == Items(entries)[i].key == entries[j].item.key;
      assert Duplicated(entries, entries[i].item.key);
    }
  }

  lemma CleanParts(entries: seq<Entry>)
    ensures Clean(entries) <==>
      && UniqueKeys(Items(entries))
      && EndpointCollisions.CollisionFree(Items(entries))
      && (forall issue :: !Blamed(entries, issue))
      && !CycleCheck.Cyclic(ParentGraph(entries)) && !CycleCheck.Cyclic(BlockerGraph(entries))
  {
    hide Duplicated, Blamed, ParentGraph, BlockerGraph, EndpointCollisions.Reported, EndpointCollisions.CollisionFree,
         CycleCheck.Cyclic, UniqueKeys;
    UniqueIffUnduplicated(entries);
    EndpointCollisions.SilentIffCollisionFree(Items(entries));
    BlamedKinds(entries);
    if Clean(entries) {
      assert !Raised(entries, ParentCycle) && !Raised(entries, DependencyCycle);
      forall key ensures !Duplicated(entries, key) {
        assert !Raised(entries, DuplicateKey(key));
      }
      forall issue ensures !EndpointCollisions.Reported(Items(entries), issue) {
        assert issue == EndpointCollisions.Issue(issue.pair, issue.node);
        assert !Raised(entries, RelationCollision(issue.pair, issue.node));
      }
      forall issue ensures !Blamed(entries, issue) {
        assert !Raised(entries, issue);
      }
    }
  }

  /**
    A plan has no structural issue if and only if its keys are unique, every reference is sound,
    no directed or related pairs collide, and no item waits for itself. Parent loops need no
    rule of their own.
   */
  lemma CleanExact(entries: seq<Entry>)
    ensures Clean(entries) <==>
      && UniqueKeys(Items(entries))
      && (forall entry, reference :: entry in entries && Mentions(entry.item, reference) ==> Sound(entries, entry, reference))
      && EndpointCollisions.CollisionFree(Items(entries))
      && (forall path :: Loop(path) ==> !Waits(entries, path))
  {
    hide Clean, Mentions, Sound, EndpointCollisions.CollisionFree, UniqueKeys, Blamed, Waits, Loop, ParentGraph, BlockerGraph;
    CleanParts(entries);
    forall path ensures Loop(path) && Waits(entries, path) <==> CycleCheck.Cycle(BlockerGraph(entries), path) {
      BlockerLoop(entries, path);
    }
    if Clean(entries) {
      forall entry, reference | entry in entries && Mentions(entry.item, reference) ensures Sound(entries, entry, reference) {
        SoundOfClean(entries, entry, reference);
      }
    } else if UniqueKeys(Items(entries))
           && (forall entry, reference :: entry in entries && Mentions(entry.item, reference) ==> Sound(entries, entry, reference)) {
      forall issue ensures !Blamed(entries, issue) {
        SoundNotBlamed(entries, issue);
      }
      if CycleCheck.Cyclic(ParentGraph(entries)) {
        ParentLoopBlamed(entries);
        assert false;
      }
    }
  }

  lemma ParentLoopBlamed(entries: seq<Entry>)
    requires CycleCheck.Cyclic(ParentGraph(entries))
    ensures exists issue :: Blamed(entries, issue)
  {
    hide Blamed, ParentGraph;
    ParentCycleImpliesMeaninglessParent(entries);
    var issue :| Raised(entries, issue) && issue.MeaninglessParent?;
    assert Blamed(entries, issue);
  }
}
