/** The backlog contract: plan, items, replan provenance and the projections published from them. */
module Backlog {
  import opened Basics
  import opened Ordering

  datatype Identity = Identity(plan: string, key: string)

  /** Listed in the alphabetical order of the relation names. */
  datatype RelationKind = BlockedBy | DecisionRequired | GovernedBy | RelatedTo | SequenceAfter

  datatype Relation = Relation(kind: RelationKind, target: Identity)

  /** `content` stands for every remaining managed scalar and list of an item. */
  datatype Item = Item(
    key: string,
    content: string,
    parent: Option<string>,
    blockedBy: seq<string>,
    sequenceAfter: seq<string>,
    relatedTo: seq<string>,
    decisionRequired: seq<string>,
    decisions: seq<string>,
    mutex: seq<string>)

  datatype NodeBinding = NodeBinding(nodeKey: string, version: int, commit: string)

  datatype ReplanScope = ReplanScope(
    baseVersion: int,
    selected: seq<string>,
    affected: seq<string>,
    bindings: seq<NodeBinding>)

  datatype Plan = Plan(
    id: string,
    version: int,
    sourceIdea: int,
    approvedCommit: Option<string>,
    replan: Option<ReplanScope>,
    items: seq<Item>)

  datatype Provenance = Provenance(version: int, commit: Option<string>)

  /** The managed projection of one item. Its digest is modelled as the projection itself. */
  datatype ManagedFields = ManagedFields(plan: string, key: string, content: string, provenance: Provenance)

  type Hash = ManagedFields

  function WithApprovedCommit(plan: Plan, commit: string): Plan {
    plan.(approvedCommit := Some(commit))
  }

  // ----- keys -----

  ghost predicate UniqueKeys(items: seq<Item>) {
    forall i, j :: 0 <= i < j < |items| ==> items[i].key != items[j].key
  }

  function Keys(items: seq<Item>): set<string> {
    set item | item in items :: item.key
  }

  /** The `by_key` dictionary: a later duplicate replaces an earlier one. */
  function ByKey(items: seq<Item>): (m: map<string, Item>)
    ensures m.Keys == Keys(items)
    ensures forall key :: key in m ==> m[key] in items && m[key].key == key
  {
    if items == [] then map[] else
      var last := items[|items| - 1];
      assert items == items[..|items| - 1] + [last];
      ByKey(items[..|items| - 1])[last.key := last]
  }

  /** Where several items carry one key the last of them is found. */
  lemma {:induction false} ByKeyLast(items: seq<Item>, i: nat)
    requires i < |items| && forall j :: i < j < |items| ==> items[j].key != items[i].key
    ensures ByKey(items)[items[i].key] == items[i]
  {
    var n := |items| - 1;
    assert items == items[..n] + [items[n]];
    if i < n {
      ByKeyLast(items[..n], i);
    }
  }

  lemma ByKeyUnique(items: seq<Item>, item: Item)
    requires UniqueKeys(items) && item in items
    ensures ByKey(items)[item.key] == item
  {
    var found := ByKey(items)[item.key];
    var i :| 0 <= i < |items| && items[i] == found;
    var j :| 0 <= j < |items| && items[j] == item;
    if i < j {
      assert items[i].key != items[j].key;
    } else if j < i {
      assert items[j].key != items[i].key;
    }
  }

  /** One step of the stable insertion behind `sorted(items, key=item.key)`. */
  function InsertItem(item: Item, sorted: seq<Item>): (r: seq<Item>)
    ensures multiset(r) == multiset(sorted) + multiset{item}
  {
    if sorted != [] && TextLe(sorted[0].key, item.key) then
      assert sorted == [sorted[0]] + sorted[1..];
      [sorted[0]] + InsertItem(item, sorted[1..])
    else [item] + sorted
  }

  function SortItems(items: seq<Item>): (r: seq<Item>)
    ensures multiset(r) == multiset(items)
  {
    if items == [] then [] else
      assert items == items[..|items| - 1] + [items[|items| - 1]];
      InsertItem(items[|items| - 1], SortItems(items[..|items| - 1]))
  }

  lemma {:induction false} InsertKeepsUnique(item: Item, sorted: seq<Item>)
    requires UniqueKeys(sorted) && forall other :: other in sorted ==> other.key != item.key
    ensures UniqueKeys(InsertItem(item, sorted))
    ensures forall other :: other in InsertItem(item, sorted) <==> other == item || other in sorted
  {
    if sorted != [] && TextLe(sorted[0].key, item.key) {
      var rest := InsertItem(item, sorted[1..]);
      InsertKeepsUnique(item, sorted[1..]);
      assert forall other :: other in rest ==> other == item || other in sorted[1..];
      forall j | 0 <= j < |rest| ensures rest[j].key != sorted[0].key {
        assert rest[j] in rest;
        if rest[j] != item {
          var k :| 0 <= k < |sorted| - 1 && sorted[1..][k] == rest[j];
          assert sorted[0].key != sorted[k + 1].key;
        }
      }
    }
  }

  lemma {:induction false} SortKeepsUnique(items: seq<Item>)
    requires UniqueKeys(items)
    ensures UniqueKeys(SortItems(items))
    ensures forall item :: item in SortItems(items) <==> item in items
  {
    if items != [] {
      var front, last := items[..|items| - 1], items[|items| - 1];
      SortKeepsUnique(front);
      assert forall item :: item in items <==> item in front || item == last;
      InsertKeepsUnique(last, SortItems(front));
    }
  }

  predicate AscendingKeys(items: seq<Item>) {
    forall i, j :: 0 <= i < j < |items| ==> TextLe(items[i].key, items[j].key)
  }

  lemma {:induction false} InsertAscending(item: Item, sorted: seq<Item>)
    requires AscendingKeys(sorted)
    ensures AscendingKeys(InsertItem(item, sorted))
    ensures forall other :: other in InsertItem(item, sorted) <==> other == item || other in sorted
  {
    hide TextLe;
    if sorted != [] && TextLe(sorted[0].key, item.key) {
      var rest := InsertItem(item, sorted[1..]);
      InsertAscending(item, sorted[1..]);
      forall j | 0 <= j < |rest| ensures TextLe(sorted[0].key, rest[j].key) {
        assert rest[j] in rest;
      }
    } else if sorted != [] {
      TextLeTotal(item.key, sorted[0].key);
      forall j | 0 <= j < |sorted| ensures TextLe(item.key, sorted[j].key) {
        if j > 0 {
          TextLeTransitive(item.key, sorted[0].key, sorted[j].key);
        }
      }
    }
  }

  /** The sorted items are in ascending key order, with nothing lost or added. */
  lemma {:induction false} SortAscending(items: seq<Item>)
    ensures AscendingKeys(SortItems(items)) && multiset(SortItems(items)) == multiset(items)
  {
    if items != [] {
      SortAscending(items[..|items| - 1]);
      InsertAscending(items[|items| - 1], SortItems(items[..|items| - 1]));
    }
  }

  // ----- provenance -----

  function FindBinding(bindings: seq<NodeBinding>, key: string): Option<NodeBinding> {
    if bindings == [] then None
    else if bindings[0].nodeKey == key then Some(bindings[0])
    else FindBinding(bindings[1..], key)
  }

  /** Version and commit that own one node of a mixed-version plan. */
  function EffectiveBinding(plan: Plan, approved: Option<string>, key: string): Provenance {
    var retained := if plan.replan.Some? then FindBinding(plan.replan.value.bindings, key) else None;
    if retained.Some? then Provenance(retained.value.version, Some(retained.value.commit))
    else Provenance(plan.version, approved)
  }

  function Managed(plan: Plan, item: Item): ManagedFields {
    ManagedFields(plan.id, item.key, item.content, EffectiveBinding(plan, plan.approvedCommit, item.key))
  }

  // ----- relations -----

  function OrderedPair(a: string, b: string): (string, string) {
    if TextLe(a, b) then (a, b) else (b, a)
  }

  /** Every `related_to` declaration of the whole plan as a lower/higher key pair. */
  function RelatedPairs(items: seq<Item>): set<(string, string)> {
    set item, target | item in items && target in item.relatedTo :: OrderedPair(item.key, target)
  }

  function Targets(plan: string, kind: RelationKind, keys: seq<string>): set<Relation> {
    set key | key in keys :: Relation(kind, Identity(plan, key))
  }

  /** Relations one item owns; a `related_to` pair belongs to its lower key only. */
  function DesiredRelations(plan: Plan, item: Item): set<Relation> {
    Targets(plan.id, BlockedBy, item.blockedBy)
    + Targets(plan.id, SequenceAfter, item.sequenceAfter)
    + (set pair | pair in RelatedPairs(plan.items) && pair.0 == item.key
         :: Relation(RelatedTo, Identity(plan.id, pair.1)))
    + Targets(plan.id, DecisionRequired, item.decisionRequired)
    + Targets(plan.id, GovernedBy, item.decisions)
  }

  function References(item: Item): set<string> {
    set key | key in item.blockedBy + item.sequenceAfter + item.relatedTo + item.decisionRequired + item.decisions
  }

  /** What `validate_plan` establishes about references and keys. */
  ghost predicate WellReferenced(plan: Plan) {
    && UniqueKeys(plan.items)
    && forall item :: item in plan.items ==>
         && (item.parent.Some? ==> item.parent.value in Keys(plan.items))
         && (forall key | key in References(item) :: key in Keys(plan.items))
  }

  lemma RelationTargetsKnown(plan: Plan, item: Item, relation: Relation)
    requires WellReferenced(plan) && item in plan.items && relation in DesiredRelations(plan, item)
    ensures relation.target.plan == plan.id && relation.target.key in Keys(plan.items)
  {
    if relation.kind == RelatedTo {
      var pair :| pair in RelatedPairs(plan.items) && pair.0 == item.key && pair.1 == relation.target.key;
      var source, target :| source in plan.items && target in source.relatedTo
                            && OrderedPair(source.key, target) == pair;
      assert target in References(source);
    } else {
      assert relation.target.key in References(item);
    }
  }

  // ----- orders used by `sorted` -----

  predicate IdentityLe(a: Identity, b: Identity) {
    if a.plan == b.plan then TextLe(a.key, b.key) else TextLe(a.plan, b.plan)
  }

  /** The name under which a relation is stored and sorted. */
  function KindName(kind: RelationKind): string {
    match kind
    case BlockedBy => "blocked_by"
    case DecisionRequired => "decision_required"
    case GovernedBy => "governed_by"
    case RelatedTo => "related_to"
    case SequenceAfter => "sequence_after"
  }

  function KindRank(kind: RelationKind): nat {
    match kind
    case BlockedBy => 0
    case DecisionRequired => 1
    case GovernedBy => 2
    case RelatedTo => 3
    case SequenceAfter => 4
  }

  predicate RelationLe(a: Relation, b: Relation) {
    if a.kind == b.kind then IdentityLe(a.target, b.target) else KindRank(a.kind) < KindRank(b.kind)
  }

  lemma IdentityOrder()
    ensures TotalOrder(IdentityLe)
  {
    TextOrder();
  }

  lemma RelationOrder()
    ensures TotalOrder(RelationLe)
  {
    IdentityOrder();
  }
}
