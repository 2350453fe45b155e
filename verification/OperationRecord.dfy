/** Operations as stored records: what a trip through JSON keeps, although it turns tuples into lists. */
module OperationRecord {
  import opened Basics

  datatype Json =
    | Null | Bool(b: bool) | Number(n: int) | Text(s: string)
    | List(items: seq<Json>) | Tuple(items: seq<Json>) | Object(fields: map<string, Json>)

  datatype Record = Record(
    id: Json, kind: Json, identity: Json, preconditions: Json, before: Json, after: Json, trace: Json, payload: Json)

  // ----- storing and restoring -----

  /** What JSON keeps of a value: tuples come back as lists. */
  function Listify(j: Json): Json {
    match j
    case List(items) => List(seq(|items|, i requires 0 <= i < |items| => Listify(items[i])))
    case Tuple(items) => List(seq(|items|, i requires 0 <= i < |items| => Listify(items[i])))
    case Object(fields) => Object(map key | key in fields :: Listify(fields[key]))
    case _ => j
  }

  function AsTuple(j: Json): Json {
    if j.List? then Tuple(j.items) else j
  }

  function Get(j: Json, key: string): Json {
    if j.Object? && key in j.fields then j.fields[key] else Null
  }

  function Stored(r: Record): Record {
    Record(Listify(r.id), Listify(r.kind), Listify(r.identity), Listify(r.preconditions),
           Listify(r.before), Listify(r.after), Listify(r.trace), Listify(r.payload))
  }

  function RestoredEndpoint(j: Json, key: string): Json {
    if j.Object? && key in j.fields && j.fields[key].List? then Object(j.fields[key := AsTuple(j.fields[key])]) else j
  }

  function RestoredEndpoints(j: Json): Json {
    RestoredEndpoint(RestoredEndpoint(j, "parent_identity"), "target_identity")
  }

  /** `_restored_operation`. */
  function Restored(r: Record): Record {
    r.(identity := AsTuple(r.identity),
       preconditions := RestoredEndpoints(r.preconditions),
       payload := RestoredEndpoints(r.payload))
  }

  function RoundTrip(r: Record): Record {
    Restored(Stored(r))
  }

  lemma {:induction false} ListifyIdempotent(j: Json)
    ensures Listify(Listify(j)) == Listify(j)
  {
    match j
    case List(items) =>
      forall i | 0 <= i < |items| ensures Listify(Listify(items[i])) == Listify(items[i]) { ListifyIdempotent(items[i]); }
    case Tuple(items) =>
      forall i | 0 <= i < |items| ensures Listify(Listify(items[i])) == Listify(items[i]) { ListifyIdempotent(items[i]); }
    case Object(fields) =>
      forall key | key in fields ensures Listify(Listify(fields[key])) == Listify(fields[key]) { ListifyIdempotent(fields[key]); }
    case _ =>
  }

  lemma AsTupleListify(j: Json)
    ensures Listify(AsTuple(j)) == Listify(j)
  {
  }

  lemma RestoredEndpointListify(j: Json, key: string)
    ensures Listify(RestoredEndpoint(j, key)) == Listify(j)
  {
    if j.Object? && key in j.fields && j.fields[key].List? {
      AsTupleListify(j.fields[key]);
      assert Listify(RestoredEndpoint(j, key)).fields == Listify(j).fields;
    }
  }

  lemma RestoredEndpointsListify(j: Json)
    ensures Listify(RestoredEndpoints(j)) == Listify(j)
  {
    RestoredEndpointListify(j, "parent_identity");
    RestoredEndpointListify(RestoredEndpoint(j, "parent_identity"), "target_identity");
  }

  /**
    Storing and restoring keeps the canonical JSON of an operation, hence its `operation_hash`,
    and a second trip changes nothing at all.
   */
  lemma RoundTripKeepsHash(r: Record)
    ensures Stored(RoundTrip(r)) == Stored(r)
    ensures RoundTrip(RoundTrip(r)) == RoundTrip(r)
  {
    hide Listify, AsTuple, RestoredEndpoints;
    var s := Stored(r);
    ListifyIdempotent(r.id);
    ListifyIdempotent(r.kind);
    ListifyIdempotent(r.before);
    ListifyIdempotent(r.after);
    ListifyIdempotent(r.trace);
    ListifyIdempotent(r.identity);
    ListifyIdempotent(r.preconditions);
    ListifyIdempotent(r.payload);
    AsTupleListify(s.identity);
    RestoredEndpointsListify(s.preconditions);
    RestoredEndpointsListify(s.payload);
  }

  // ----- the checks as they read a record -----

  type Endpoint = (string, string)

  type Edge = (string, Endpoint)

  /** What a check reads of the current work package. */
  datatype Observation = Observation(
    hash: string, hasParent: bool, parent: Option<Endpoint>, relations: seq<Edge>,
    superseded: bool, ready: bool, evidence: Option<string>)

  datatype Objection =
    | IdentityExists | IdentityUnresolved | ManagedStateChanged | TopologyMalformed
    | ParentTopologyChanged | RelationTopologyChanged

  datatype RecordKind =
    | CreateKind | UpdateKind | SupersedeKind | ReactivateKind | ParentKind | AddKind | RemoveKind | AuditKind | UnknownKind

  function KindOf(j: Json): RecordKind {
    if !j.Text? then UnknownKind
    else if j.s == "create_work_package" then CreateKind
    else if j.s == "update_managed_fields" then UpdateKind
    else if j.s == "mark_superseded" then SupersedeKind
    else if j.s == "reactivate_work_package" then ReactivateKind
    else if j.s == "set_parent" then ParentKind
    else if j.s == "create_relation" then AddKind
    else if j.s == "remove_managed_relation" then RemoveKind
    else if j.s == "record_audit" then AuditKind
    else UnknownKind
  }

  datatype Gate = Yes | No | Raises

  predicate Truthy(j: Json) {
    match j
    case Null => false
    case Bool(b) => b
    case Number(n) => n != 0
    case Text(s) => s != ""
    case List(items) => items != []
    case Tuple(items) => items != []
    case Object(fields) => fields != map[]
  }

  predicate Sequence(j: Json) {
    j.List? || j.Tuple?
  }

  predicate PairShaped(j: Json) {
    Sequence(j) && |j.items| == 2
  }

  predicate TextPair(j: Json) {
    PairShaped(j) && j.items[0].Text? && j.items[1].Text?
  }

  predicate RelationShaped(j: Json) {
    PairShaped(j) && PairShaped(j.items[1])
  }

  predicate TextRelation(j: Json) {
    RelationShaped(j) && j.items[0].Text? && TextPair(j.items[1])
  }

  function EndpointJson(endpoint: Option<Endpoint>): Json {
    if endpoint.None? then Null else Tuple([Text(endpoint.value.0), Text(endpoint.value.1)])
  }

  /** The builtin `str`; `show` renders everything that is not text already. */
  function Str(show: Json -> string, j: Json): string {
    if j.Text? then j.s else show(j)
  }

  function ShownEdge(show: Json -> string, j: Json): Edge
    requires RelationShaped(j)
  {
    (Str(show, j.items[0]), (Str(show, j.items[1].items[0]), Str(show, j.items[1].items[1])))
  }

  function Normalized(show: Json -> string, items: seq<Json>): seq<Edge> {
    if items == [] then [] else
      Normalized(show, items[..|items| - 1])
      + (if RelationShaped(items[|items| - 1]) then [ShownEdge(show, items[|items| - 1])] else [])
  }

  predicate SameEdges(a: seq<Edge>, b: seq<Edge>) {
    multiset(a) == multiset(b)
  }

  /** `_assert_current` on a record. */
  function AssertCurrent(show: Json -> string, r: Record, current: Option<Observation>): Result<(), Objection> {
    var pre := r.preconditions;
    if Truthy(Get(pre, "identity_absent")) && current.Some? then Err(IdentityExists)
    else if Truthy(Get(pre, "identity_resolved")) && current.None? then Err(IdentityUnresolved)
    else if current.Some? && Get(pre, "expected_managed_hash") != Null
            && Get(pre, "expected_managed_hash") != Text(current.value.hash) then Err(ManagedStateChanged)
    else if current.None? || !(pre.Object? && "expected_parent_identity" in pre.fields) then Ok(())
    else
      var parent := AsTuple(Get(pre, "expected_parent_identity"));
      var unmanaged, relations := Get(pre, "expected_unmanaged_parent"), Get(pre, "expected_managed_relations");
      if !unmanaged.Bool? || !relations.List? then Err(TopologyMalformed)
      else if EndpointJson(current.value.parent) != parent
           || (current.value.hasParent && current.value.parent.None?) != unmanaged.b then Err(ParentTopologyChanged)
      else
        var normalized := Normalized(show, relations.items);
        if |normalized| != |relations.items| || !SameEdges(current.value.relations, normalized) then
          Err(RelationTopologyChanged)
        else Ok(())
  }

  /** The three topology conditions in the form the adapter accepts. */
  datatype Expected = Expected(parent: Option<Endpoint>, unmanaged: bool, edges: seq<Edge>)

  function EndpointOf(j: Json): Endpoint
    requires TextPair(j)
  {
    (j.items[0].s, j.items[1].s)
  }

  function EdgeOf(j: Json): Edge
    requires TextRelation(j)
  {
    (j.items[0].s, EndpointOf(j.items[1]))
  }

  /** `Null` or a pair of texts, given as a list or a tuple; anything else is malformed. */
  function OptionalEndpoint(j: Json): Option<Option<Endpoint>> {
    if j == Null then Some(None) else if TextPair(j) then Some(Some(EndpointOf(j))) else None
  }

  function Edges(j: Json): Option<seq<Edge>> {
    if j.List? && forall i :: 0 <= i < |j.items| ==> TextRelation(j.items[i]) then
      Some(seq(|j.items|, i requires 0 <= i < |j.items| => EdgeOf(j.items[i])))
    else None
  }

  function ExpectedTopology(r: Record): Option<Expected> {
    var pre := r.preconditions;
    if !(pre.Object? && {"expected_parent_identity", "expected_unmanaged_parent", "expected_managed_relations"} <= pre.fields.Keys)
    then None
    else
      var parent := OptionalEndpoint(pre.fields["expected_parent_identity"]);
      var unmanaged := pre.fields["expected_unmanaged_parent"];
      var edges := Edges(pre.fields["expected_managed_relations"]);
      if parent.None? || !unmanaged.Bool? || edges.None? then None
      else Some(Expected(parent.value, unmanaged.b, edges.value))
  }

  /** `_assert_topology_preconditions`. */
  predicate TopologyAccepted(r: Record, current: Observation) {
    var expected := ExpectedTopology(r);
    && expected.Some?
    && !(expected.value.parent.Some? && expected.value.unmanaged)
    && current.parent == expected.value.parent
    && (current.hasParent && current.parent.None?) == expected.value.unmanaged
    && SameEdges(current.relations, expected.value.edges)
  }

  function Answer(b: bool): Gate {
    if b then Yes else No
  }

  function ParentMatches(current: Observation, parent: Option<Endpoint>, unmanaged: bool): bool {
    if parent.None? then current.parent.None? && current.hasParent == unmanaged
    else !unmanaged && current.parent == parent
  }

  predicate ExactlyEdges(edges: seq<Edge>, expected: set<Edge>) {
    multiset(edges) == multiset(expected)
  }

  /** `_postcondition_topology`. */
  function PostconditionTopology(r: Record, current: Observation): Gate {
    var expected := ExpectedTopology(r);
    if expected.None? then Raises else
      var edges := Members(expected.value.edges);
      var kind := KindOf(r.kind);
      if kind.ParentKind? then
        var requested := OptionalEndpoint(Get(r.payload, "parent_identity"));
        if requested.None? then Raises
        else Answer(ParentMatches(current, requested.value, false) && ExactlyEdges(current.relations, edges))
      else if kind.AddKind? || kind.RemoveKind? then
        var semantic, target := Get(r.payload, "type"), Get(r.payload, "target_identity");
        if !semantic.Text? || !TextPair(target) then Raises
        else
          var edge := (semantic.s, EndpointOf(target));
          if kind.AddKind? == (edge in edges) then Raises
          else
            var changed := if kind.AddKind? then edges + {edge} else edges - {edge};
            Answer(ParentMatches(current, expected.value.parent, expected.value.unmanaged)
                   && ExactlyEdges(current.relations, changed))
      else
        Answer(ParentMatches(current, expected.value.parent, expected.value.unmanaged)
               && ExactlyEdges(current.relations, edges))
  }

  function And(b: bool, gate: Gate): Gate {
    if gate.Raises? then gate else Answer(b && gate.Yes?)
  }

  function OptionalText(text: Option<string>): Json {
    if text.None? then Null else Text(text.value)
  }

  /** `postcondition`, after the current work package was resolved. */
  function Postcondition(r: Record, current: Option<Observation>): Gate {
    var kind := KindOf(r.kind);
    if kind.AuditKind? then No
    else if kind.CreateKind? then
      Answer(current.Some? && Text(current.value.hash) == r.after
             && OptionalText(current.value.evidence) == Get(r.payload, "evidence_state")
             && !current.value.hasParent && current.value.relations == [] && !current.value.superseded)
    else if current.None? then No
    else
      var topology := PostconditionTopology(r, current.value);
      match kind
      case UpdateKind => And(Text(current.value.hash) == r.after, topology)
      case SupersedeKind => And(current.value.superseded, topology)
      case ReactivateKind =>
        And(Get(r.payload, "status") == Text("Ready") && current.value.ready && !current.value.superseded, topology)
      case UnknownKind => And(false, topology)
      case _ => topology
  }

  // ----- the checks cannot tell a restored operation from the original -----

  /**
    The relation list is a list, and `str` renders the parts of its well-shaped entries the
    same with tuples as with lists (as it does whenever they are texts).
   */
  ghost predicate Regular(show: Json -> string, r: Record) {
    var relations := Get(r.preconditions, "expected_managed_relations");
    && !relations.Tuple?
    && (relations.List? ==> forall i :: 0 <= i < |relations.items| ==> RegularEntry(show, relations.items[i]))
  }

  ghost predicate RegularEntry(show: Json -> string, j: Json) {
    RelationShaped(j) ==>
      && Str(show, Listify(j.items[0])) == Str(show, j.items[0])
      && Str(show, Listify(j.items[1].items[0])) == Str(show, j.items[1].items[0])
      && Str(show, Listify(j.items[1].items[1])) == Str(show, j.items[1].items[1])
  }

  /** Conditions other than the two endpoints come back as their JSON. */
  lemma GetRestored(j: Json, key: string)
    requires key != "parent_identity" && key != "target_identity"
    ensures Get(RestoredEndpoints(Listify(j)), key) == Listify(Get(j, key))
    ensures RestoredEndpoints(Listify(j)).Object? <==> j.Object?
    ensures j.Object? ==> RestoredEndpoints(Listify(j)).fields.Keys == j.fields.Keys
  {
  }

  lemma GetRestoredEndpoint(j: Json, key: string)
    requires key == "parent_identity" || key == "target_identity"
    ensures Get(RestoredEndpoints(Listify(j)), key) == AsTuple(Listify(Get(j, key)))
  {
  }

  lemma TextKept(j: Json)
    ensures forall s :: Listify(j) == Text(s) <==> j == Text(s)
    ensures Listify(j).Text? <==> j.Text?
    ensures Listify(j) == Null <==> j == Null
    ensures forall b :: Listify(j) == Bool(b) <==> j == Bool(b)
    ensures Truthy(Listify(j)) <==> Truthy(j)
  {
    if j.Object? && j.fields != map[] {
      var key :| key in j.fields;
      assert key in Listify(j).fields;
    }
  }

  lemma KindKept(j: Json)
    ensures KindOf(Listify(j)) == KindOf(j)
  {
    TextKept(j);
  }

  lemma PairKept(j: Json)
    ensures TextPair(Listify(j)) <==> TextPair(j)
    ensures TextPair(j) ==> EndpointOf(Listify(j)) == EndpointOf(j)
    ensures OptionalEndpoint(Listify(j)) == OptionalEndpoint(j) == OptionalEndpoint(AsTuple(Listify(j)))
    ensures forall endpoint :: AsTuple(Listify(j)) == EndpointJson(endpoint) <==> AsTuple(j) == EndpointJson(endpoint)
  {
    if PairShaped(j) {
      TextKept(j.items[0]);
      TextKept(j.items[1]);
      assert Listify(j).items == [Listify(j.items[0]), Listify(j.items[1])];
      assert j.items == [j.items[0], j.items[1]];
    }
  }

  lemma RelationKept(j: Json)
    ensures RelationShaped(Listify(j)) <==> RelationShaped(j)
    ensures TextRelation(Listify(j)) <==> TextRelation(j)
    ensures TextRelation(j) ==> EdgeOf(Listify(j)) == EdgeOf(j)
  {
    if PairShaped(j) {
      TextKept(j.items[0]);
      PairKept(j.items[1]);
    }
  }

  lemma EdgesKept(j: Json)
    requires !j.Tuple?
    ensures Edges(Listify(j)) == Edges(j)
  {
    if j.List? {
      forall i | 0 <= i < |j.items|
        ensures TextRelation(Listify(j).items[i]) <==> TextRelation(j.items[i])
        ensures TextRelation(j.items[i]) ==> EdgeOf(Listify(j).items[i]) == EdgeOf(j.items[i])
      {
        RelationKept(j.items[i]);
      }
      if Edges(j).Some? {
        assert Edges(Listify(j)).value == Edges(j).value;
      }
    }
  }

  lemma {:induction false} NormalizedKept(show: Json -> string, items: seq<Json>)
    requires forall i :: 0 <= i < |items| ==> RegularEntry(show, items[i])
    ensures Normalized(show, Listify(List(items)).items) == Normalized(show, items)
  {
    if items != [] {
      var front, last := items[..|items| - 1], items[|items| - 1];
      NormalizedKept(show, front);
      assert Listify(List(items)).items[..|items| - 1] == Listify(List(front)).items;
      RelationKept(last);
      assert RegularEntry(show, items[|items| - 1]);
    }
  }

  lemma AssertCurrentKept(show: Json -> string, r: Record, current: Option<Observation>)
    requires Regular(show, r)
    ensures AssertCurrent(show, RoundTrip(r), current) == AssertCurrent(show, r, current)
  {
    hide Listify, Normalized, RestoredEndpoints, EndpointJson, Truthy;
    var pre := r.preconditions;
    GetRestored(pre, "identity_absent");
    GetRestored(pre, "identity_resolved");
    GetRestored(pre, "expected_managed_hash");
    GetRestored(pre, "expected_parent_identity");
    GetRestored(pre, "expected_unmanaged_parent");
    GetRestored(pre, "expected_managed_relations");
    TextKept(Get(pre, "identity_absent"));
    TextKept(Get(pre, "identity_resolved"));
    TextKept(Get(pre, "expected_managed_hash"));
    TextKept(Get(pre, "expected_unmanaged_parent"));
    PairKept(Get(pre, "expected_parent_identity"));
    var relations := Get(pre, "expected_managed_relations");
    ListKept(relations);
    BoolKept(Get(pre, "expected_unmanaged_parent"));
    if relations.List? {
      NormalizedKept(show, relations.items);
      ListLength(relations.items);
    }
  }

  lemma ListKept(j: Json)
    requires !j.Tuple?
    ensures Listify(j).List? <==> j.List?
    ensures j.List? ==> Listify(j) == Listify(List(j.items))
  {
  }

  lemma ListLength(items: seq<Json>)
    ensures Listify(List(items)).List? && |Listify(List(items)).items| == |items|
  {
  }

  lemma BoolKept(j: Json)
    ensures Listify(j).Bool? <==> j.Bool?
    ensures j.Bool? ==> Listify(j) == j
  {
  }

  lemma ExpectedKept(show: Json -> string, r: Record)
    requires Regular(show, r)
    ensures ExpectedTopology(RoundTrip(r)) == ExpectedTopology(r)
  {
    hide Listify, RestoredEndpoints, OptionalEndpoint, Edges;
    var pre := r.preconditions;
    GetRestored(pre, "expected_parent_identity");
    GetRestored(pre, "expected_unmanaged_parent");
    GetRestored(pre, "expected_managed_relations");
    PairKept(Get(pre, "expected_parent_identity"));
    BoolKept(Get(pre, "expected_unmanaged_parent"));
    EdgesKept(Get(pre, "expected_managed_relations"));
  }

  /** The topology checks of the adapter, before and after an effect. */
  lemma TopologyKept(show: Json -> string, r: Record, current: Observation)
    requires Regular(show, r)
    ensures TopologyAccepted(RoundTrip(r), current) <==> TopologyAccepted(r, current)
    ensures PostconditionTopology(RoundTrip(r), current) == PostconditionTopology(r, current)
  {
    hide Listify, RestoredEndpoints, ExpectedTopology, ExactlyEdges, SameEdges, Members, KindOf;
    ExpectedKept(show, r);
    KindKept(r.kind);
    GetRestoredEndpoint(r.payload, "parent_identity");
    GetRestoredEndpoint(r.payload, "target_identity");
    GetRestored(r.payload, "type");
    PairKept(Get(r.payload, "parent_identity"));
    PairKept(Get(r.payload, "target_identity"));
    PairTuple(Listify(Get(r.payload, "target_identity")));
    TextKept(Get(r.payload, "type"));
  }

  lemma PairTuple(j: Json)
    ensures TextPair(AsTuple(j)) <==> TextPair(j)
    ensures TextPair(j) ==> EndpointOf(AsTuple(j)) == EndpointOf(j)
  {
  }

  /** The recovery gate. */
  lemma PostconditionKept(show: Json -> string, r: Record, current: Option<Observation>)
    requires Regular(show, r)
    ensures Postcondition(RoundTrip(r), current) == Postcondition(r, current)
  {
    hide Listify, RestoredEndpoints, PostconditionTopology, And, Answer, Regular, Get, RoundTrip, KindOf, OptionalText;
    if current.Some? {
      TopologyKept(show, r, current.value);
    }
    FieldsKept(r);
  }

  lemma FieldsKept(r: Record)
    ensures KindOf(RoundTrip(r).kind) == KindOf(r.kind)
    ensures forall s :: RoundTrip(r).after == Text(s) <==> r.after == Text(s)
    ensures forall s :: Get(RoundTrip(r).payload, "status") == Text(s) <==> Get(r.payload, "status") == Text(s)
    ensures forall text ::
      OptionalText(text) == Get(RoundTrip(r).payload, "evidence_state") <==> OptionalText(text) == Get(r.payload, "evidence_state")
  {
    hide Listify, RestoredEndpoints, KindOf;
    KindKept(r.kind);
    TextKept(r.after);
    GetRestored(r.payload, "evidence_state");
    GetRestored(r.payload, "status");
    TextKept(Get(r.payload, "evidence_state"));
    TextKept(Get(r.payload, "status"));
  }
}
