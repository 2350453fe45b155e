/** The typed operations of the publication model as records, and the agreement of their verdicts. */
module RecordEncoding {
  import opened Basics
  import opened Backlog
  import O = Operations
  import PlanDiff
  import opened OperationRecord

  /** How digests are written as text; only `hash` needs to be injective. */
  datatype Rendering = Rendering(hash: Hash -> string, id: O.OperationId -> string, trace: string)

  ghost predicate Faithful(render: Rendering) {
    forall a, b :: render.hash(a) == render.hash(b) ==> a == b
  }

  // ----- encoding -----

  function ActionName(action: O.Action): string {
    match action
    case CreateWorkPackage(_, _) => "create_work_package"
    case UpdateManagedFields(_) => "update_managed_fields"
    case SetParent(_) => "set_parent"
    case CreateRelation(_) => "create_relation"
    case RemoveManagedRelation(_) => "remove_managed_relation"
    case ReactivateWorkPackage => "reactivate_work_package"
    case MarkSuperseded => "mark_superseded"
    case RecordAudit(_) => "record_audit"
  }

  function Pair(identity: Identity): Endpoint {
    (identity.plan, identity.key)
  }

  function OptionalPair(identity: Option<Identity>): Option<Endpoint> {
    if identity.None? then None else Some(Pair(identity.value))
  }

  function EdgeFor(relation: Relation): Edge {
    (KindName(relation.kind), Pair(relation.target))
  }

  function IdentityJson(identity: Identity): Json {
    EndpointJson(Some(Pair(identity)))
  }

  function RelationJson(relation: Relation): Json {
    List([Text(KindName(relation.kind)), IdentityJson(relation.target)])
  }

  ghost function RelationsJson(relations: set<Relation>): Json {
    var sorted := PlanDiff.SortedRelations(relations);
    List(seq(|sorted|, i requires 0 <= i < |sorted| => RelationJson(sorted[i])))
  }

  function HashJson(render: Rendering, hash: Option<Hash>): Json {
    if hash.None? then Null else Text(render.hash(hash.value))
  }

  ghost function PreconditionsJson(render: Rendering, pre: O.Preconditions): Json {
    var base := map[
      "publication_identity" := Text(pre.publication),
      "plan_version" := Number(pre.version),
      "base_snapshot_sha256" := Text(pre.snapshot),
      "base_snapshot_etag" := Text(pre.snapshot),
      "expected_managed_hash" := HashJson(render, pre.expectedHash)];
    var absent := if pre.identityAbsent then base["identity_absent" := Bool(true)] else base;
    var resolved := if pre.identityResolved then absent["identity_resolved" := Bool(true)] else absent;
    Object(if pre.topology.None? then resolved else
             var topology := pre.topology.value;
             resolved["expected_parent_identity" := EndpointJson(OptionalPair(topology.parent))]
                     ["expected_unmanaged_parent" := Bool(topology.unmanaged)]
                     ["expected_managed_relations" := RelationsJson(topology.relations)])
  }

  function FieldsJson(fields: ManagedFields): map<string, Json> {
    map[
      "plan_id" := Text(fields.plan),
      "node_key" := Text(fields.key),
      "plan_version" := Number(fields.provenance.version),
      "planning_commit" := OptionalText(fields.provenance.commit),
      "content" := Text(fields.content)]
  }

  function RelationPayload(relation: Relation): Json {
    Object(map["type" := Text(KindName(relation.kind)), "target_identity" := IdentityJson(relation.target)])
  }

  function PayloadJson(render: Rendering, action: O.Action): Json {
    match action
    case CreateWorkPackage(fields, evidence) => Object(FieldsJson(fields)["evidence_state" := Text(evidence)])
    case UpdateManagedFields(fields) => Object(FieldsJson(fields))
    case SetParent(parent) => Object(map["parent_identity" := EndpointJson(OptionalPair(parent))])
    case CreateRelation(relation) => RelationPayload(relation)
    case RemoveManagedRelation(relation) => RelationPayload(relation)
    case ReactivateWorkPackage => Object(map["status" := Text("Ready")])
    case MarkSuperseded => Object(map["superseded" := Bool(true)])
    case RecordAudit(ids) =>
      Object(map["operation_ids" := List(seq(|ids|, i requires 0 <= i < |ids| => Text(render.id(ids[i]))))])
  }

  ghost function Encode(render: Rendering, op: O.Operation): Record {
    Record(Text(render.id(op.id)), Text(ActionName(op.action)), IdentityJson(op.identity),
           PreconditionsJson(render, op.preconditions), HashJson(render, op.before), HashJson(render, op.after),
           Text(render.trace), PayloadJson(render, op.action))
  }

  ghost function EdgesFor(relations: set<Relation>): seq<Edge> {
    var sorted := PlanDiff.SortedRelations(relations);
    seq(|sorted|, i requires 0 <= i < |sorted| => EdgeFor(sorted[i]))
  }

  ghost function Observe(render: Rendering, package: O.Package): Observation {
    Observation(
      render.hash(package.hash), !package.parent.NoParent?, OptionalPair(O.ParentIdentity(package)),
      EdgesFor(package.relations), package.status.Superseded?, package.status.Ready?, package.evidence)
  }

  ghost function ObserveOptional(render: Rendering, package: Option<O.Package>): Option<Observation> {
    if package.None? then None else Some(Observe(render, package.value))
  }

  // ----- relations as edges -----

  lemma EdgeInjective(a: Relation, b: Relation)
    requires EdgeFor(a) == EdgeFor(b)
    ensures a == b
  {
    assert KindName(BlockedBy)[0] == 'b' && KindName(DecisionRequired)[0] == 'd' && KindName(GovernedBy)[0] == 'g'
           && KindName(RelatedTo)[0] == 'r' && KindName(SequenceAfter)[0] == 's';
  }

  lemma EdgesMembers(relations: set<Relation>)
    ensures forall edge :: edge in EdgesFor(relations) <==> exists relation :: relation in relations && EdgeFor(relation) == edge
    ensures forall i, j :: 0 <= i < j < |EdgesFor(relations)| ==> EdgesFor(relations)[i] != EdgesFor(relations)[j]
  {
    hide EdgeFor;
    var sorted := PlanDiff.SortedRelations(relations);
    forall relation | relation in relations ensures EdgeFor(relation) in EdgesFor(relations) {
      var i :| 0 <= i < |sorted| && sorted[i] == relation;
      assert EdgesFor(relations)[i] == EdgeFor(relation);
    }
    forall i, j | 0 <= i < j < |sorted| ensures EdgeFor(sorted[i]) != EdgeFor(sorted[j]) {
      if EdgeFor(sorted[i]) == EdgeFor(sorted[j]) {
        EdgeInjective(sorted[i], sorted[j]);
      }
    }
  }

  lemma {:induction false} DistinctMultiset(edges: seq<Edge>)
    requires forall i, j :: 0 <= i < j < |edges| ==> edges[i] != edges[j]
    ensures multiset(edges) == multiset(Members(edges))
  {
    if edges != [] {
      var front, last := edges[..|edges| - 1], edges[|edges| - 1];
      DistinctMultiset(front);
      assert edges == front + [last];
      assert last !in front;
      assert Members(edges) == Members(front) + {last};
    }
  }

  /** `edges` are the edges of the relations. */
  ghost predicate EdgesOf(edges: set<Edge>, relations: set<Relation>) {
    forall edge :: edge in edges <==> exists relation :: relation in relations && EdgeFor(relation) == edge
  }

  lemma EdgesOfMember(edges: set<Edge>, relations: set<Relation>, relation: Relation)
    requires EdgesOf(edges, relations)
    ensures EdgeFor(relation) in edges <==> relation in relations
  {
    EdgeReflects(relations, relation);
  }

  lemma EdgesOfUnique(edges: set<Edge>, others: set<Edge>, relations: set<Relation>)
    requires EdgesOf(edges, relations) && EdgesOf(others, relations)
    ensures edges == others
  {
  }

  /** Equal edges come from equal relations. */
  lemma EdgesOfInjective(edges: set<Edge>, a: set<Relation>, b: set<Relation>)
    requires EdgesOf(edges, a) && EdgesOf(edges, b)
    ensures a == b
  {
    hide EdgesOf, EdgeFor;
    forall relation ensures relation in a <==> relation in b {
      EdgesOfMember(edges, a, relation);
      EdgesOfMember(edges, b, relation);
    }
  }

  lemma MultisetOfSet(a: set<Edge>, b: set<Edge>)
    ensures multiset(a) == multiset(b) <==> a == b
  {
    if multiset(a) == multiset(b) {
      assert forall edge :: edge in a <==> edge in multiset(a);
      assert forall edge :: edge in b <==> edge in multiset(b);
    }
  }

  lemma EdgesForMembers(relations: set<Relation>)
    ensures EdgesOf(Members(EdgesFor(relations)), relations)
    ensures multiset(EdgesFor(relations)) == multiset(Members(EdgesFor(relations)))
  {
    EdgesMembers(relations);
    DistinctMultiset(EdgesFor(relations));
  }

  /** The edges of a set of relations are exactly a given set of edges. */
  lemma ExactlyEdgesFor(relations: set<Relation>, expected: set<Relation>, edges: set<Edge>)
    requires EdgesOf(edges, expected)
    ensures ExactlyEdges(EdgesFor(relations), edges) <==> relations == expected
  {
    hide EdgesOf, EdgesFor, Members;
    var found := Members(EdgesFor(relations));
    EdgesForMembers(relations);
    MultisetOfSet(found, edges);
    if relations == expected {
      EdgesOfUnique(found, edges, relations);
    }
    if found == edges {
      EdgesOfInjective(edges, relations, expected);
    }
  }

  lemma EdgeReflects(relations: set<Relation>, relation: Relation)
    ensures relation in relations <==> exists other :: other in relations && EdgeFor(other) == EdgeFor(relation)
  {
    if other :| other in relations && EdgeFor(other) == EdgeFor(relation) {
      EdgeInjective(other, relation);
    }
  }

  lemma SameEdgesFor(a: set<Relation>, b: set<Relation>)
    ensures SameEdges(EdgesFor(a), EdgesFor(b)) <==> a == b
  {
    EdgesForMembers(b);
    ExactlyEdgesFor(a, b, Members(EdgesFor(b)));
  }

  lemma RelationJsonShape(relation: Relation)
    ensures TextRelation(RelationJson(relation)) && EdgeOf(RelationJson(relation)) == EdgeFor(relation)
    ensures forall show :: ShownEdge(show, RelationJson(relation)) == EdgeFor(relation)
    ensures forall show :: RegularEntry(show, RelationJson(relation))
  {
    var j := RelationJson(relation);
    assert j.items[0] == Text(KindName(relation.kind)) && j.items[1].items[0].Text? && j.items[1].items[1].Text?;
  }

  lemma RelationsJsonEdges(relations: set<Relation>)
    ensures Edges(RelationsJson(relations)) == Some(EdgesFor(relations))
  {
    var sorted := PlanDiff.SortedRelations(relations);
    forall i | 0 <= i < |sorted| ensures TextRelation(RelationJson(sorted[i])) && EdgeOf(RelationJson(sorted[i])) == EdgeFor(sorted[i]) {
      RelationJsonShape(sorted[i]);
    }
    assert Edges(RelationsJson(relations)).value == EdgesFor(relations);
  }

  lemma {:induction false} NormalizedJson(show: Json -> string, sorted: seq<Relation>)
    ensures Normalized(show, seq(|sorted|, i requires 0 <= i < |sorted| => RelationJson(sorted[i])))
         == seq(|sorted|, i requires 0 <= i < |sorted| => EdgeFor(sorted[i]))
  {
    if sorted != [] {
      var front, last := sorted[..|sorted| - 1], sorted[|sorted| - 1];
      NormalizedJson(show, front);
      RelationJsonShape(last);
      var items := seq(|sorted|, i requires 0 <= i < |sorted| => RelationJson(sorted[i]));
      assert items[..|items| - 1] == seq(|front|, i requires 0 <= i < |front| => RelationJson(front[i]));
    }
  }

  lemma EncodedRegular(show: Json -> string, render: Rendering, op: O.Operation)
    ensures Regular(show, Encode(render, op))
  {
    ConditionsFound(render, op.preconditions);
    if op.preconditions.topology.Some? {
      var sorted := PlanDiff.SortedRelations(op.preconditions.topology.value.relations);
      forall i | 0 <= i < |sorted| ensures RegularEntry(show, RelationJson(sorted[i])) {
        RelationJsonShape(sorted[i]);
      }
    }
  }

  // ----- the verdicts agree -----

  lemma ConditionsFound(render: Rendering, pre: O.Preconditions)
    ensures var j := PreconditionsJson(render, pre);
      && j.Object?
      && (Truthy(Get(j, "identity_absent")) <==> pre.identityAbsent)
      && (Truthy(Get(j, "identity_resolved")) <==> pre.identityResolved)
      && Get(j, "expected_managed_hash") == HashJson(render, pre.expectedHash)
      && ("expected_parent_identity" in j.fields <==> pre.topology.Some?)
      && (pre.topology.Some? ==>
            && {"expected_parent_identity", "expected_unmanaged_parent", "expected_managed_relations"} <= j.fields.Keys
            && Get(j, "expected_parent_identity") == EndpointJson(OptionalPair(pre.topology.value.parent))
            && Get(j, "expected_unmanaged_parent") == Bool(pre.topology.value.unmanaged)
            && Get(j, "expected_managed_relations") == RelationsJson(pre.topology.value.relations))
      && (pre.topology.None? ==> Get(j, "expected_managed_relations") == Null)
  {
    hide RelationsJson, HashJson, EndpointJson;
  }

  function Objected(rejection: O.Rejection): Objection {
    match rejection
    case IdentityExists => Objection.IdentityExists
    case IdentityUnresolved => Objection.IdentityUnresolved
    case ManagedStateChanged => Objection.ManagedStateChanged
    case ParentTopologyChanged => Objection.ParentTopologyChanged
    case RelationTopologyChanged => Objection.RelationTopologyChanged
  }

  lemma EndpointInjective(a: Option<Identity>, b: Option<Identity>)
    ensures EndpointJson(OptionalPair(a)) == EndpointJson(OptionalPair(b)) <==> a == b
    ensures OptionalPair(a) == OptionalPair(b) <==> a == b
    ensures AsTuple(EndpointJson(OptionalPair(a))) == EndpointJson(OptionalPair(a))
    ensures OptionalEndpoint(EndpointJson(OptionalPair(a))) == Some(OptionalPair(a))
  {
    if a.Some? && b.Some? && EndpointJson(OptionalPair(a)) == EndpointJson(OptionalPair(b)) {
      assert EndpointJson(OptionalPair(a)).items[0] == EndpointJson(OptionalPair(b)).items[0];
      assert EndpointJson(OptionalPair(a)).items[1] == EndpointJson(OptionalPair(b)).items[1];
    }
  }

  /** The publisher's check on a record says what the typed check says. */
  lemma AssertCurrentAgrees(show: Json -> string, render: Rendering, op: O.Operation, package: Option<O.Package>)
    requires Faithful(render)
    ensures AssertCurrent(show, Encode(render, op), ObserveOptional(render, package))
         == match O.AssertCurrent(op, package)
            case Ok(_) => Ok(())
            case Err(rejection) => Err(Objected(rejection))
  {
    hide PreconditionsJson, RelationsJson, EdgesFor, SameEdges, Normalized, Truthy, PayloadJson, EndpointJson, OptionalPair;
    var pre := op.preconditions;
    ConditionsFound(render, pre);
    if package.Some? && pre.topology.Some? {
      var topology := pre.topology.value;
      EndpointInjective(O.ParentIdentity(package.value), topology.parent);
      EndpointInjective(topology.parent, topology.parent);
      SameEdgesFor(package.value.relations, topology.relations);
      ShownRelations(show, topology.relations);
      OptionalPairSome(O.ParentIdentity(package.value));
    }
  }

  lemma OptionalPairSome(identity: Option<Identity>)
    ensures OptionalPair(identity).None? <==> identity.None?
  {
  }

  lemma ShownRelations(show: Json -> string, relations: set<Relation>)
    ensures RelationsJson(relations).List? && |RelationsJson(relations).items| == |EdgesFor(relations)|
    ensures Normalized(show, RelationsJson(relations).items) == EdgesFor(relations)
  {
    NormalizedJson(show, PlanDiff.SortedRelations(relations));
  }

  lemma ExpectedFound(render: Rendering, op: O.Operation)
    ensures ExpectedTopology(Encode(render, op)) ==
      if op.preconditions.topology.None? then None else
        var topology := op.preconditions.topology.value;
        Some(Expected(OptionalPair(topology.parent), topology.unmanaged, EdgesFor(topology.relations)))
  {
    hide PreconditionsJson, RelationsJson, EdgesFor, PayloadJson, EndpointJson, OptionalPair, OptionalEndpoint, Edges;
    ConditionsFound(render, op.preconditions);
    if op.preconditions.topology.Some? {
      EndpointInjective(op.preconditions.topology.value.parent, None);
      RelationsJsonEdges(op.preconditions.topology.value.relations);
    }
  }

  function Gated(verdict: O.Verdict): Gate {
    match verdict
    case Landed => Yes
    case NotLanded => No
    case Malformed => Raises
  }

  lemma ParentAgrees(render: Rendering, package: O.Package, parent: Option<Identity>, unmanaged: bool)
    ensures ParentMatches(Observe(render, package), OptionalPair(parent), unmanaged) == O.ParentMatches(package, parent, unmanaged)
  {
    EndpointInjective(O.ParentIdentity(package), parent);
  }

  /** Membership and update of the expected edges mirror those of the expected relations. */
  lemma EdgeSets(relations: set<Relation>, relation: Relation)
    ensures var edges := Members(EdgesFor(relations));
      && (EdgeFor(relation) in edges <==> relation in relations)
      && EdgesOf(edges, relations)
      && EdgesOf(edges + {EdgeFor(relation)}, relations + {relation})
      && EdgesOf(edges - {EdgeFor(relation)}, relations - {relation})
  {
    EdgesMembers(relations);
    EdgeReflects(relations, relation);
    var edges := Members(EdgesFor(relations));
    forall edge ensures edge in edges - {EdgeFor(relation)} <==> exists r :: r in relations - {relation} && EdgeFor(r) == edge {
      if edge in edges - {EdgeFor(relation)} {
        var r :| r in relations && EdgeFor(r) == edge;
        assert r in relations - {relation};
      }
      if r :| r in relations - {relation} && EdgeFor(r) == edge {
        if EdgeFor(r) == EdgeFor(relation) {
          EdgeInjective(r, relation);
        }
      }
    }
    forall edge ensures edge in edges + {EdgeFor(relation)} <==> exists r :: r in relations + {relation} && EdgeFor(r) == edge {
      if edge == EdgeFor(relation) {
        assert relation in relations + {relation};
      } else if edge in edges {
        var r :| r in relations && EdgeFor(r) == edge;
        assert r in relations + {relation};
      }
    }
  }

  lemma PayloadFound(render: Rendering, op: O.Operation)
    ensures op.action.SetParent? ==>
      OptionalEndpoint(Get(PayloadJson(render, op.action), "parent_identity")) == Some(OptionalPair(op.action.parent))
    ensures op.action.CreateRelation? || op.action.RemoveManagedRelation? ==>
      var payload := PayloadJson(render, op.action);
      && Get(payload, "type") == Text(KindName(op.action.relation.kind))
      && TextPair(Get(payload, "target_identity"))
      && EndpointOf(Get(payload, "target_identity")) == Pair(op.action.relation.target)
    ensures op.action.CreateWorkPackage? ==> Get(PayloadJson(render, op.action), "evidence_state") == Text(op.action.evidence)
    ensures op.action.ReactivateWorkPackage? ==> Get(PayloadJson(render, op.action), "status") == Text("Ready")
  {
    if op.action.SetParent? {
      EndpointInjective(op.action.parent, None);
    }
  }

  /** The topology part of the recovery gate on a record says what the typed one says. */
  lemma PostconditionTopologyAgrees(render: Rendering, op: O.Operation, package: O.Package)
    ensures PostconditionTopology(Encode(render, op), Observe(render, package)) == Gated(O.PostconditionTopology(op, package))
  {
    hide PreconditionsJson, RelationsJson, EdgesFor, PayloadJson, OptionalEndpoint, ExpectedTopology, ExactlyEdges, Members,
         ParentMatches, O.ParentMatches, OptionalPair, KindName, EndpointOf, TextPair, KindOf, ActionName;
    ExpectedFound(render, op);
    PayloadFound(render, op);
    ActionNames(op.action);
    if op.preconditions.topology.Some? {
      var expected := op.preconditions.topology.value;
      var edges := Members(EdgesFor(expected.relations));
      ParentAgrees(render, package, expected.parent, expected.unmanaged);
      match op.action
      case SetParent(parent) =>
        ParentAgrees(render, package, parent, false);
        EdgeSets(expected.relations, Relation(RelatedTo, op.identity));
        ExactlyEdgesFor(package.relations, expected.relations, edges);
      case CreateRelation(relation) =>
        EdgeSets(expected.relations, relation);
        ExactlyEdgesFor(package.relations, expected.relations + {relation}, edges + {EdgeFor(relation)});
      case RemoveManagedRelation(relation) =>
        EdgeSets(expected.relations, relation);
        ExactlyEdgesFor(package.relations, expected.relations - {relation}, edges - {EdgeFor(relation)});
      case _ =>
        EdgeSets(expected.relations, Relation(RelatedTo, op.identity));
        ExactlyEdgesFor(package.relations, expected.relations, edges);
    }
  }

  lemma ActionNames(action: O.Action)
    ensures KindOf(Text(ActionName(action))) == match action
      case CreateWorkPackage(_, _) => CreateKind
      case UpdateManagedFields(_) => UpdateKind
      case SetParent(_) => ParentKind
      case CreateRelation(_) => AddKind
      case RemoveManagedRelation(_) => RemoveKind
      case ReactivateWorkPackage => ReactivateKind
      case MarkSuperseded => SupersedeKind
      case RecordAudit(_) => AuditKind
  {
  }

  /** The whole recovery gate, wherever the identity is not duplicated. */
  lemma PostconditionAgrees(render: Rendering, op: O.Operation, w: O.World)
    requires Faithful(render) && op.identity !in w.duplicates
    ensures Postcondition(Encode(render, op), ObserveOptional(render, O.Find(w, op.identity))) == Gated(O.Postcondition(op, w))
  {
    hide PreconditionsJson, RelationsJson, EdgesFor, PayloadJson, PostconditionTopology, O.PostconditionTopology, KindOf,
         ActionName;
    PayloadFound(render, op);
    ActionNames(op.action);
    if op.identity in w.packages {
      var package := w.packages[op.identity];
      PostconditionTopologyAgrees(render, op, package);
      NoEdges(package.relations);
    }
  }

  lemma NoEdges(relations: set<Relation>)
    ensures EdgesFor(relations) == [] <==> relations == {}
  {
    var sorted := PlanDiff.SortedRelations(relations);
    assert sorted != [] ==> sorted[0] in sorted;
    assert |EdgesFor(relations)| == |sorted|;
  }

  /**
    An operation that went through the journal's JSON is the same operation to everyone:
    it keeps its identity and its hash, and every check returns the verdict of the typed model.
   */
  lemma JournalRoundTrip(show: Json -> string, render: Rendering, op: O.Operation, w: O.World)
    requires Faithful(render) && op.identity !in w.duplicates
    ensures var restored := RoundTrip(Encode(render, op));
      && Stored(restored) == Stored(Encode(render, op))
      && restored.identity == IdentityJson(op.identity)
      && AssertCurrent(show, restored, ObserveOptional(render, O.Find(w, op.identity)))
         == (match O.AssertCurrent(op, O.Find(w, op.identity))
             case Ok(_) => Ok(())
             case Err(rejection) => Err(Objected(rejection)))
      && Postcondition(restored, ObserveOptional(render, O.Find(w, op.identity))) == Gated(O.Postcondition(op, w))
  {
    hide Encode, AssertCurrent, Postcondition, O.AssertCurrent, O.Postcondition, Regular, Stored, RoundTrip;
    var r := Encode(render, op);
    RoundTripKeepsHash(r);
    EncodedRegular(show, render, op);
    AssertCurrentKept(show, r, ObserveOptional(render, O.Find(w, op.identity)));
    PostconditionKept(show, r, ObserveOptional(render, O.Find(w, op.identity)));
    AssertCurrentAgrees(show, render, op, O.Find(w, op.identity));
    PostconditionAgrees(render, op, w);
    IdentityKept(render, op);
  }

  lemma IdentityKept(render: Rendering, op: O.Operation)
    ensures RoundTrip(Encode(render, op)).identity == IdentityJson(op.identity)
  {
    hide PreconditionsJson, PayloadJson, RestoredEndpoints;
    var items := IdentityJson(op.identity).items;
    assert Listify(IdentityJson(op.identity)).items == items;
  }

  // ----- nothing is lost -----

  lemma GetListify(j: Json, key: string)
    ensures Get(Listify(j), key) == Listify(Get(j, key))
  {
  }

  lemma HashBack(render: Rendering, a: Option<Hash>, b: Option<Hash>)
    requires Faithful(render) && Listify(HashJson(render, a)) == Listify(HashJson(render, b))
    ensures a == b
  {
  }

  lemma PairBack(a: Option<Endpoint>, b: Option<Endpoint>)
    requires Listify(EndpointJson(a)) == Listify(EndpointJson(b))
    ensures a == b
  {
    if a.Some? && b.Some? {
      var p, q := Listify(EndpointJson(a)), Listify(EndpointJson(b));
      assert p.items[0] == Listify(Text(a.value.0)) && q.items[0] == Listify(Text(b.value.0));
      assert p.items[1] == Listify(Text(a.value.1)) && q.items[1] == Listify(Text(b.value.1));
      assert a.value == (a.value.0, a.value.1) && b.value == (b.value.0, b.value.1);
    }
  }

  lemma EndpointBack(a: Option<Identity>, b: Option<Identity>)
    requires Listify(EndpointJson(OptionalPair(a))) == Listify(EndpointJson(OptionalPair(b)))
    ensures a == b
  {
    PairBack(OptionalPair(a), OptionalPair(b));
    EndpointInjective(a, b);
  }

  lemma KindBack(a: RelationKind, b: RelationKind)
    requires KindName(a) == KindName(b)
    ensures a == b
  {
    assert KindName(BlockedBy)[0] == 'b' && KindName(DecisionRequired)[0] == 'd' && KindName(GovernedBy)[0] == 'g'
           && KindName(RelatedTo)[0] == 'r' && KindName(SequenceAfter)[0] == 's';
  }

  lemma RelationBack(a: Relation, b: Relation)
    requires Listify(RelationJson(a)) == Listify(RelationJson(b))
    ensures a == b
  {
    hide KindName;
    var p, q := Listify(RelationJson(a)), Listify(RelationJson(b));
    assert p.items[0] == Listify(Text(KindName(a.kind))) && q.items[0] == Listify(Text(KindName(b.kind)));
    assert p.items[1] == Listify(IdentityJson(a.target)) && q.items[1] == Listify(IdentityJson(b.target));
    KindBack(a.kind, b.kind);
    EndpointBack(Some(a.target), Some(b.target));
  }

  lemma RelationsBack(a: set<Relation>, b: set<Relation>)
    requires Listify(RelationsJson(a)) == Listify(RelationsJson(b))
    ensures a == b
  {
    hide RelationJson;
    var p, q := PlanDiff.SortedRelations(a), PlanDiff.SortedRelations(b);
    var x, y := Listify(RelationsJson(a)), Listify(RelationsJson(b));
    assert |x.items| == |p| && |y.items| == |q|;
    forall i | 0 <= i < |p| ensures p[i] == q[i] {
      assert x.items[i] == Listify(RelationJson(p[i])) && y.items[i] == Listify(RelationJson(q[i]));
      RelationBack(p[i], q[i]);
    }
    assert p == q;
    assert forall relation :: relation in a <==> relation in p;
    assert forall relation :: relation in b <==> relation in q;
  }

  lemma FieldsBack(a: ManagedFields, b: ManagedFields, x: map<string, Json>, y: map<string, Json>)
    requires FieldsJson(a).Keys <= x.Keys && FieldsJson(b).Keys <= y.Keys
    requires forall key | key in FieldsJson(a) :: x[key] == FieldsJson(a)[key]
    requires forall key | key in FieldsJson(b) :: y[key] == FieldsJson(b)[key]
    requires Listify(Object(x)) == Listify(Object(y))
    ensures a == b
  {
    var p, q := Object(x), Object(y);
    GetListify(p, "plan_id");
    GetListify(q, "plan_id");
    GetListify(p, "node_key");
    GetListify(q, "node_key");
    GetListify(p, "plan_version");
    GetListify(q, "plan_version");
    GetListify(p, "planning_commit");
    GetListify(q, "planning_commit");
    GetListify(p, "content");
    GetListify(q, "content");
    hide Listify;
    FieldsFound(a);
    FieldsFound(b);
    TextBack(Get(p, "plan_id"));
    TextBack(Get(p, "node_key"));
    TextBack(Get(p, "plan_version"));
    TextBack(Get(p, "planning_commit"));
    TextBack(Get(p, "content"));
    TextBack(Get(q, "plan_id"));
    TextBack(Get(q, "node_key"));
    TextBack(Get(q, "plan_version"));
    TextBack(Get(q, "planning_commit"));
    TextBack(Get(q, "content"));
  }

  lemma FieldsFound(fields: ManagedFields)
    ensures var json := FieldsJson(fields);
            && "plan_id" in json && json["plan_id"] == Text(fields.plan)
            && "node_key" in json && json["node_key"] == Text(fields.key)
            && "plan_version" in json && json["plan_version"] == Number(fields.provenance.version)
            && "planning_commit" in json && json["planning_commit"] == OptionalText(fields.provenance.commit)
            && "content" in json && json["content"] == Text(fields.content)
  {
  }

  lemma TextBack(j: Json)
    ensures j.Text? || j.Number? || j.Null? || j.Bool? ==> Listify(j) == j
  {
  }

  lemma {:induction false} IdsBack(render: Rendering, a: seq<O.OperationId>, b: seq<O.OperationId>)
    requires forall x, y :: render.id(x) == render.id(y) ==> x == y
    requires Listify(List(seq(|a|, i requires 0 <= i < |a| => Text(render.id(a[i])))))
          == Listify(List(seq(|b|, i requires 0 <= i < |b| => Text(render.id(b[i])))))
    ensures a == b
  {
    var p := List(seq(|a|, i requires 0 <= i < |a| => Text(render.id(a[i]))));
    var q := List(seq(|b|, i requires 0 <= i < |b| => Text(render.id(b[i]))));
    assert |Listify(p).items| == |a| && |Listify(q).items| == |b|;
    forall i | 0 <= i < |a| ensures a[i] == b[i] {
      assert Listify(p).items[i] == Listify(Text(render.id(a[i]))) && Listify(q).items[i] == Listify(Text(render.id(b[i])));
    }
  }

  /** Both renderings of digests are injective. */
  ghost predicate Injective(render: Rendering) {
    Faithful(render) && forall x, y :: render.id(x) == render.id(y) ==> x == y
  }

  lemma SameConstructor(a: O.Action, b: O.Action)
    requires ActionName(a) == ActionName(b)
    ensures a.CreateWorkPackage? <==> b.CreateWorkPackage?
    ensures a.UpdateManagedFields? <==> b.UpdateManagedFields?
    ensures a.SetParent? <==> b.SetParent?
    ensures a.CreateRelation? <==> b.CreateRelation?
    ensures a.RemoveManagedRelation? <==> b.RemoveManagedRelation?
    ensures a.ReactivateWorkPackage? <==> b.ReactivateWorkPackage?
    ensures a.MarkSuperseded? <==> b.MarkSuperseded?
  {
    ActionNames(a);
    ActionNames(b);
  }

  lemma RelationPayloadBack(a: Relation, b: Relation)
    requires Listify(RelationPayload(a)) == Listify(RelationPayload(b))
    ensures a == b
  {
    var p, q := RelationPayload(a), RelationPayload(b);
    GetListify(p, "type");
    GetListify(q, "type");
    GetListify(p, "target_identity");
    GetListify(q, "target_identity");
    hide KindName, Listify, EndpointJson;
    TextBack(Text(KindName(a.kind)));
    TextBack(Text(KindName(b.kind)));
    KindBack(a.kind, b.kind);
    EndpointBack(Some(a.target), Some(b.target));
  }

  lemma CreationBack(a: ManagedFields, evidence: string, b: ManagedFields, other: string)
    requires Listify(Object(FieldsJson(a)["evidence_state" := Text(evidence)]))
          == Listify(Object(FieldsJson(b)["evidence_state" := Text(other)]))
    ensures a == b && evidence == other
  {
    var x, y := FieldsJson(a)["evidence_state" := Text(evidence)], FieldsJson(b)["evidence_state" := Text(other)];
    FieldsBack(a, b, x, y);
    GetListify(Object(x), "evidence_state");
    GetListify(Object(y), "evidence_state");
  }

  lemma ParentPayloadBack(a: Option<Identity>, b: Option<Identity>)
    requires Listify(Object(map["parent_identity" := EndpointJson(OptionalPair(a))]))
          == Listify(Object(map["parent_identity" := EndpointJson(OptionalPair(b))]))
    ensures a == b
  {
    GetListify(Object(map["parent_identity" := EndpointJson(OptionalPair(a))]), "parent_identity");
    GetListify(Object(map["parent_identity" := EndpointJson(OptionalPair(b))]), "parent_identity");
    hide Listify, EndpointJson;
    EndpointBack(a, b);
  }

  function IdsJson(render: Rendering, ids: seq<O.OperationId>): Json {
    List(seq(|ids|, i requires 0 <= i < |ids| => Text(render.id(ids[i]))))
  }

  lemma AuditBack(render: Rendering, a: seq<O.OperationId>, b: seq<O.OperationId>)
    requires Injective(render)
    requires Listify(PayloadJson(render, O.RecordAudit(a))) == Listify(PayloadJson(render, O.RecordAudit(b)))
    ensures a == b
  {
    var p, q := PayloadJson(render, O.RecordAudit(a)), PayloadJson(render, O.RecordAudit(b));
    GetListify(p, "operation_ids");
    GetListify(q, "operation_ids");
    assert Get(p, "operation_ids") == IdsJson(render, a) && Get(q, "operation_ids") == IdsJson(render, b);
    hide Listify;
    IdsBack(render, a, b);
  }

  lemma ActionBack(render: Rendering, a: O.Action, b: O.Action)
    requires Injective(render) && ActionName(a) == ActionName(b)
    requires Listify(PayloadJson(render, a)) == Listify(PayloadJson(render, b))
    ensures a == b
  {
    hide Listify, FieldsJson, RelationPayload, EndpointJson, Injective;
    SameConstructor(a, b);
    hide ActionName;
    match a
    case CreateWorkPackage(fields, evidence) => CreationBack(fields, evidence, b.fields, b.evidence);
    case UpdateManagedFields(fields) => FieldsBack(fields, b.fields, FieldsJson(fields), FieldsJson(b.fields));
    case SetParent(parent) => ParentPayloadBack(parent, b.parent);
    case CreateRelation(relation) => RelationPayloadBack(relation, b.relation);
    case RemoveManagedRelation(relation) => RelationPayloadBack(relation, b.relation);
    case RecordAudit(ids) => AuditBack(render, ids, b.operations);
    case _ =>
  }

  lemma BaseFound(render: Rendering, pre: O.Preconditions)
    ensures var j := PreconditionsJson(render, pre);
      && Get(j, "publication_identity") == Text(pre.publication) && Get(j, "plan_version") == Number(pre.version)
      && Get(j, "base_snapshot_sha256") == Text(pre.snapshot)
      && (pre.topology.None? ==> Get(j, "expected_unmanaged_parent") == Null)
  {
    hide RelationsJson, HashJson, EndpointJson;
  }

  lemma SameValue(a: Json, b: Json, key: string)
    requires Listify(a) == Listify(b)
    ensures Listify(Get(a, key)) == Listify(Get(b, key))
    ensures Truthy(Get(a, key)) <==> Truthy(Get(b, key))
  {
    GetListify(a, key);
    GetListify(b, key);
    hide Listify, Truthy, Get;
    TextKept(Get(a, key));
    TextKept(Get(b, key));
  }

  lemma PreconditionsBack(render: Rendering, a: O.Preconditions, b: O.Preconditions)
    requires Faithful(render) && Listify(PreconditionsJson(render, a)) == Listify(PreconditionsJson(render, b))
    ensures a == b
  {
    hide PreconditionsJson, Listify, HashJson, EndpointJson, RelationsJson, Truthy, Get, OptionalPair, Faithful;
    var p, q := PreconditionsJson(render, a), PreconditionsJson(render, b);
    BaseFound(render, a);
    BaseFound(render, b);
    ConditionsFound(render, a);
    ConditionsFound(render, b);
    SameValue(p, q, "publication_identity");
    SameValue(p, q, "plan_version");
    SameValue(p, q, "base_snapshot_sha256");
    SameValue(p, q, "identity_absent");
    SameValue(p, q, "identity_resolved");
    SameValue(p, q, "expected_managed_hash");
    SameValue(p, q, "expected_unmanaged_parent");
    TextBack(Text(a.publication));
    TextBack(Text(b.publication));
    TextBack(Number(a.version));
    TextBack(Number(b.version));
    TextBack(Text(a.snapshot));
    TextBack(Text(b.snapshot));
    HashBack(render, a.expectedHash, b.expectedHash);
    TextBack(Null);
    if a.topology.Some? { TextBack(Bool(a.topology.value.unmanaged)); }
    if b.topology.Some? { TextBack(Bool(b.topology.value.unmanaged)); }
    if a.topology.Some? && b.topology.Some? {
      SameValue(p, q, "expected_parent_identity");
      SameValue(p, q, "expected_managed_relations");
      EndpointBack(a.topology.value.parent, b.topology.value.parent);
      RelationsBack(a.topology.value.relations, b.topology.value.relations);
    }
  }

  /** The content columns of a journal row, without its identifier. */
  ghost function Content(r: Record): seq<Json> {
    [r.kind, r.identity, r.preconditions, r.before, r.after, r.payload]
  }

  /**
    Nothing of an operation is lost in its journal row: two operations whose stored content
    columns agree have the same action with the same payload, the same identity, the same
    preconditions and the same hashes, whatever their identifiers.
   */
  lemma EncodingLossless(render: Rendering, a: O.Operation, b: O.Operation)
    requires Injective(render) && Content(Stored(Encode(render, a))) == Content(Stored(Encode(render, b)))
    ensures a.action == b.action && a.identity == b.identity && a.preconditions == b.preconditions
    ensures a.before == b.before && a.after == b.after
  {
    var x, y := Stored(Encode(render, a)), Stored(Encode(render, b));
    hide Injective, ActionName, PayloadJson, PreconditionsJson, HashJson, Listify;
    assert Content(x)[0] == Content(y)[0] && Content(x)[1] == Content(y)[1] && Content(x)[2] == Content(y)[2];
    assert Content(x)[3] == Content(y)[3] && Content(x)[4] == Content(y)[4] && Content(x)[5] == Content(y)[5];
    TextBack(Text(ActionName(a.action)));
    TextBack(Text(ActionName(b.action)));
    InjectiveFaithful(render);
    ActionBack(render, a.action, b.action);
    EndpointBack(Some(a.identity), Some(b.identity));
    PreconditionsBack(render, a.preconditions, b.preconditions);
    HashBack(render, a.before, b.before);
    HashBack(render, a.after, b.after);
  }

  lemma InjectiveFaithful(render: Rendering)
    requires Injective(render)
    ensures Faithful(render)
  {
  }
}
