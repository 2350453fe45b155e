/** The checks on stored records over all records, well-formed or not. */
module RecordChecks {
  import opened Basics
  import opened OperationRecord

  /** `null` for no endpoint, otherwise two texts in a list or a tuple. */
  predicate Names(j: Json, endpoint: Option<Endpoint>) {
    match endpoint
    case None => j == Null
    case Some((plan, key)) => (j.List? || j.Tuple?) && j.items == [Text(plan), Text(key)]
  }

  lemma EndpointExact(j: Json, endpoint: Option<Endpoint>)
    ensures EndpointJson(endpoint) == AsTuple(j) <==> Names(j, endpoint)
    ensures OptionalEndpoint(j) == Some(endpoint) <==> Names(j, endpoint)
  {
    if TextPair(j) {
      assert j.items == [j.items[0], j.items[1]];
      assert j.items == [Text(j.items[0].s), Text(j.items[1].s)];
    }
  }

  /** A two-element entry whose second element has two elements, read as text, gives the edge. */
  predicate Reads(show: Json -> string, j: Json, edge: Edge) {
    && (j.List? || j.Tuple?) && |j.items| == 2
    && (j.items[1].List? || j.items[1].Tuple?) && |j.items[1].items| == 2
    && edge.0 == Str(show, j.items[0])
    && edge.1.0 == Str(show, j.items[1].items[0]) && edge.1.1 == Str(show, j.items[1].items[1])
  }

  /** The entries give the edges one by one. */
  ghost predicate Lists(show: Json -> string, items: seq<Json>, edges: seq<Edge>) {
    |items| == |edges| && forall i :: 0 <= i < |items| ==> Reads(show, items[i], edges[i])
  }

  lemma ReadsExact(show: Json -> string, j: Json, edge: Edge)
    ensures Reads(show, j, edge) <==> RelationShaped(j) && ShownEdge(show, j) == edge
  {
    assert edge == (edge.0, (edge.1.0, edge.1.1));
  }

  /** A list is normalized without loss exactly if every entry gives an edge. */
  lemma {:induction false} NormalizedExact(show: Json -> string, items: seq<Json>)
    ensures |Normalized(show, items)| <= |items|
    ensures |Normalized(show, items)| == |items| <==> exists edges :: Lists(show, items, edges)
    ensures forall edges :: Lists(show, items, edges) ==> Normalized(show, items) == edges
  {
    hide RelationShaped, ShownEdge, Reads;
    if items == [] {
      assert Lists(show, items, []);
    } else {
      var n := |items| - 1;
      NormalizedExact(show, items[..n]);
      forall edge ensures Reads(show, items[n], edge) <==> RelationShaped(items[n]) && ShownEdge(show, items[n]) == edge {
        ReadsExact(show, items[n], edge);
      }
      forall edges | Lists(show, items, edges) ensures Normalized(show, items) == edges {
        assert edges == edges[..n] + [edges[n]];
        assert Lists(show, items[..n], edges[..n]);
        assert Reads(show, items[n], edges[n]);
      }
      if |Normalized(show, items)| == |items| {
        var front :| Lists(show, items[..n], front);
        assert Lists(show, items, front + [ShownEdge(show, items[n])]);
      }
    }
  }

  /** The conditions name a parent, the flag and the relations, and the work package shows just these. */
  ghost predicate SameTopology(show: Json -> string, pre: Json, current: Observation) {
    && Names(Get(pre, "expected_parent_identity"), current.parent)
    && Get(pre, "expected_unmanaged_parent") == Bool(current.hasParent && current.parent == None)
    && Get(pre, "expected_managed_relations").List?
    && exists edges :: Lists(show, Get(pre, "expected_managed_relations").items, edges) && multiset(edges) == multiset(current.relations)
  }

  /**
    The publisher's check on any record. Without a work package it passes unless one is required;
    with one, unless absence is required, another hash is, or another topology is. A condition on
    the topology that cannot be read is never met.
   */
  lemma RecordCheckExact(show: Json -> string, r: Record, current: Option<Observation>)
    ensures AssertCurrent(show, r, current).Ok? <==>
      match current
      case None => !Truthy(Get(r.preconditions, "identity_resolved"))
      case Some(seen) =>
        && !Truthy(Get(r.preconditions, "identity_absent"))
        && (Get(r.preconditions, "expected_managed_hash") == Null
            || Get(r.preconditions, "expected_managed_hash") == Text(seen.hash))
        && ((r.preconditions.Object? && "expected_parent_identity" in r.preconditions.fields) ==>
              SameTopology(show, r.preconditions, seen))
  {
    hide Truthy, Normalized, Names, EndpointJson, Reads;
    if current.Some? {
      EndpointExact(Get(r.preconditions, "expected_parent_identity"), current.value.parent);
      var relations := Get(r.preconditions, "expected_managed_relations");
      if relations.List? {
        NormalizedExact(show, relations.items);
      }
    }
  }

  // ----- what the adapter reads -----

  predicate Spells(j: Json, edge: Edge) {
    && (j.List? || j.Tuple?) && |j.items| == 2
    && j.items[0] == Text(edge.0) && Names(j.items[1], Some(edge.1))
  }

  /** The three conditions, all present and in their exact form. */
  ghost predicate Gives(r: Record, parent: Option<Endpoint>, unmanaged: bool, edges: seq<Edge>) {
    && r.preconditions.Object?
    && "expected_parent_identity" in r.preconditions.fields
    && "expected_unmanaged_parent" in r.preconditions.fields
    && "expected_managed_relations" in r.preconditions.fields
    && Names(r.preconditions.fields["expected_parent_identity"], parent)
    && r.preconditions.fields["expected_unmanaged_parent"] == Bool(unmanaged)
    && var relations := r.preconditions.fields["expected_managed_relations"];
       && relations.List? && |relations.items| == |edges|
       && forall i :: 0 <= i < |edges| ==> Spells(relations.items[i], edges[i])
  }

  lemma SpellsExact(j: Json, edge: Edge)
    ensures Spells(j, edge) <==> TextRelation(j) && EdgeOf(j) == edge
  {
    assert edge == (edge.0, (edge.1.0, edge.1.1));
    if RelationShaped(j) {
      EndpointExact(j.items[1], Some(edge.1));
    }
  }

  lemma EdgesExact(j: Json, edges: seq<Edge>)
    ensures Edges(j) == Some(edges) <==>
      j.List? && |j.items| == |edges| && forall i :: 0 <= i < |edges| ==> Spells(j.items[i], edges[i])
  {
    hide Spells, TextRelation, EdgeOf;
    if j.List? {
      forall i, edge | 0 <= i < |j.items|
        ensures Spells(j.items[i], edge) <==> TextRelation(j.items[i]) && EdgeOf(j.items[i]) == edge
      {
        SpellsExact(j.items[i], edge);
      }
      if Edges(j) == Some(edges) {
        assert forall i :: 0 <= i < |edges| ==> edges[i] == EdgeOf(j.items[i]);
      }
      if |j.items| == |edges| && forall i :: 0 <= i < |edges| ==> Spells(j.items[i], edges[i]) {
        assert Edges(j).value == edges;
      }
    }
  }

  lemma ExpectedExact(r: Record, parent: Option<Endpoint>, unmanaged: bool, edges: seq<Edge>)
    ensures ExpectedTopology(r) == Some(Expected(parent, unmanaged, edges)) <==> Gives(r, parent, unmanaged, edges)
  {
    hide Names, Spells, Edges, OptionalEndpoint;
    if r.preconditions.Object? && "expected_parent_identity" in r.preconditions.fields
       && "expected_managed_relations" in r.preconditions.fields
    {
      EndpointExact(r.preconditions.fields["expected_parent_identity"], parent);
      EdgesExact(r.preconditions.fields["expected_managed_relations"], edges);
    }
  }

  /** The adapter's topology check on any record. */
  lemma RecordAcceptExact(r: Record, current: Observation)
    ensures TopologyAccepted(r, current) <==>
      exists unmanaged, edges :: Gives(r, current.parent, unmanaged, edges)
        && unmanaged == (current.hasParent && current.parent == None) && multiset(edges) == multiset(current.relations)
  {
    hide Gives, ExpectedTopology;
    forall edges, unmanaged
      ensures ExpectedTopology(r) == Some(Expected(current.parent, unmanaged, edges)) <==> Gives(r, current.parent, unmanaged, edges)
    {
      ExpectedExact(r, current.parent, unmanaged, edges);
    }
    if TopologyAccepted(r, current) {
      var expected := ExpectedTopology(r).value;
      assert expected == Expected(current.parent, current.hasParent && current.parent == None, expected.edges);
      assert Gives(r, current.parent, current.hasParent && current.parent == None, expected.edges);
    }
  }

  /** The payload of a re-parenting or relation operation cannot be read, or the relation is where it should not be. */
  ghost predicate Misfits(r: Record, edges: seq<Edge>) {
    match KindOf(r.kind)
    case ParentKind => forall endpoint :: !Names(Get(r.payload, "parent_identity"), endpoint)
    case AddKind => forall edge :: Describes(r.payload, edge) ==> edge in edges
    case RemoveKind => forall edge :: Describes(r.payload, edge) ==> edge !in edges
    case _ => false
  }

  ghost predicate Describes(payload: Json, edge: Edge) {
    Get(payload, "type") == Text(edge.0) && Names(Get(payload, "target_identity"), Some(edge.1))
  }

  lemma DescribesExact(payload: Json, edge: Edge)
    ensures Describes(payload, edge) <==>
      Get(payload, "type").Text? && TextPair(Get(payload, "target_identity"))
      && edge == (Get(payload, "type").s, EndpointOf(Get(payload, "target_identity")))
  {
    assert edge == (edge.0, (edge.1.0, edge.1.1));
    EndpointExact(Get(payload, "target_identity"), Some(edge.1));
  }

  lemma ParentNamed(payload: Json)
    ensures OptionalEndpoint(Get(payload, "parent_identity")).None? <==>
      forall endpoint :: !Names(Get(payload, "parent_identity"), endpoint)
  {
    hide Names, OptionalEndpoint;
    var j := Get(payload, "parent_identity");
    forall endpoint ensures OptionalEndpoint(j) == Some(endpoint) <==> Names(j, endpoint) {
      EndpointExact(j, endpoint);
    }
    if OptionalEndpoint(j).Some? {
      assert Names(j, OptionalEndpoint(j).value);
    }
  }

  lemma TopologyRaises(r: Record, current: Observation)
    ensures PostconditionTopology(r, current) == Raises <==>
      ExpectedTopology(r).None? || Misfits(r, ExpectedTopology(r).value.edges)
  {
    hide ExpectedTopology, KindOf, OptionalEndpoint, Names, Describes, EndpointOf, TextPair, ParentMatches, ExactlyEdges;
    ParentNamed(r.payload);
    var kind, semantic, target := Get(r.payload, "type"), Get(r.payload, "type"), Get(r.payload, "target_identity");
    forall edge
      ensures Describes(r.payload, edge) <==> semantic.Text? && TextPair(target) && edge == (semantic.s, EndpointOf(target))
    {
      DescribesExact(r.payload, edge);
    }
    if semantic.Text? && TextPair(target) {
      assert Describes(r.payload, (semantic.s, EndpointOf(target)));
    }
  }

  /**
    When the recovery gate raises instead of answering: on an existing work package, for anything
    but a creation or an audit record, if the conditions or the payload cannot be read or the
    relation to add was demanded already, or the one to remove was not.
   */
  lemma RecordGateRaises(r: Record, current: Option<Observation>)
    ensures Postcondition(r, current) == Raises <==>
      && current.Some? && KindOf(r.kind) != AuditKind && KindOf(r.kind) != CreateKind
      && forall parent, unmanaged, edges :: Gives(r, parent, unmanaged, edges) ==> Misfits(r, edges)
  {
    hide PostconditionTopology, Gives, Misfits, ExpectedTopology, KindOf, OptionalText, Get;
    if current.Some? {
      TopologyRaises(r, current.value);
      forall parent, unmanaged, edges
        ensures ExpectedTopology(r) == Some(Expected(parent, unmanaged, edges)) <==> Gives(r, parent, unmanaged, edges)
      {
        ExpectedExact(r, parent, unmanaged, edges);
      }
      if ExpectedTopology(r).Some? {
        var expected := ExpectedTopology(r).value;
        assert expected == Expected(expected.parent, expected.unmanaged, expected.edges);
        assert Gives(r, expected.parent, expected.unmanaged, expected.edges);
      }
    }
  }
}
