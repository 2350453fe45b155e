/** Managed work packages, guarded operations on them, and the checks around each effect. */
module Operations {
  import opened Basics
  import opened Backlog

  // ----- the remote store -----

  /**
    The native parent: none, one without a planning identity, one outside the project listing
    that carries an identity, or one that is listed with its identity.
   */
  datatype Parent = NoParent | UnmanagedParent | ForeignParent(identity: Identity) | ManagedParent(identity: Identity)

  datatype Status = New | Ready | Superseded | Other(id: int)

  datatype Package = Package(
    hash: Hash,
    parent: Parent,
    relations: set<Relation>,
    status: Status,
    evidence: Option<string>)

  /** `duplicates` holds the identities carried by more than one work package. */
  datatype World = World(packages: map<Identity, Package>, duplicates: set<Identity>)

  /** A single work package is read together with its parent, wherever that one is. */
  function ParentIdentity(package: Package): Option<Identity> {
    if package.parent.ManagedParent? || package.parent.ForeignParent? then Some(package.parent.identity) else None
  }

  function ParentFor(identity: Option<Identity>): Parent {
    if identity.Some? then ManagedParent(identity.value) else NoParent
  }

  function Find(w: World, identity: Identity): Option<Package> {
    if identity in w.packages then Some(w.packages[identity]) else None
  }

  /** A work package as listed by the store; unmanaged ones carry no identity. */
  datatype Listed = Listed(identity: Option<Identity>, package: Package)

  ghost predicate Conflicting(listed: seq<Listed>) {
    exists i, j :: 0 <= i < j < |listed| && listed[i].identity.Some? && listed[i].identity == listed[j].identity
  }

  ghost predicate SharedBy(identity: Identity, a: Listed, b: Listed) {
    a.identity == Some(identity) == b.identity
  }

  /** `OpenProjectSnapshot.identities`: one package per identity, or a conflict. */
  method Identities(listed: seq<Listed>) returns (result: Result<map<Identity, Package>, Identity>)
    ensures result.Err? <==> Conflicting(listed)
    ensures result.Err? ==> exists i, j :: 0 <= i < j < |listed| && SharedBy(result.error, listed[i], listed[j])
    ensures result.Ok? ==> forall identity, package ::
      (identity in result.value && result.value[identity] == package) <==> Listed(Some(identity), package) in listed
  {
    var found: map<Identity, Package> := map[];
    for i := 0 to |listed|
      invariant !Conflicting(listed[..i])
      invariant forall j :: 0 <= j < i && listed[j].identity.Some? ==>
        listed[j].identity.value in found && found[listed[j].identity.value] == listed[j].package
      invariant forall identity :: identity in found ==> Listed(Some(identity), found[identity]) in listed[..i]
    {
      assert listed[..i + 1] == listed[..i] + [listed[i]];
      if listed[i].identity.Some? {
        var identity := listed[i].identity.value;
        if identity in found {
          var j :| 0 <= j < i && listed[..i][j] == Listed(Some(identity), found[identity]);
          assert listed[j].identity == listed[i].identity && SharedBy(identity, listed[j], listed[i]);
          return Err(identity);
        }
        found := found[identity := listed[i].package];
      }
    }
    assert listed[..|listed|] == listed;
    return Ok(found);
  }

  // ----- operations -----

  datatype Topology = Topology(parent: Option<Identity>, unmanaged: bool, relations: set<Relation>)

  datatype Preconditions = Preconditions(
    publication: string,
    version: int,
    snapshot: string,
    expectedHash: Option<Hash>,
    identityAbsent: bool,
    identityResolved: bool,
    topology: Option<Topology>)

  datatype Action =
    | CreateWorkPackage(fields: ManagedFields, evidence: string)
    | UpdateManagedFields(fields: ManagedFields)
    | SetParent(parent: Option<Identity>)
    | CreateRelation(relation: Relation)
    | RemoveManagedRelation(relation: Relation)
    | ReactivateWorkPackage
    | MarkSuperseded
    | RecordAudit(operations: seq<OperationId>)

  /** The digested content that identifies an operation; digests are modelled as injective. */
  datatype OperationId = OperationId(
    publication: string,
    version: int,
    action: Action,
    identity: Identity,
    preconditions: Preconditions)

  datatype Operation = Operation(
    id: OperationId,
    action: Action,
    identity: Identity,
    preconditions: Preconditions,
    before: Option<Hash>,
    after: Option<Hash>)

  const Pending := "pending"

  /** What the store holds once the request of one operation has committed. */
  function Effect(op: Operation, w: World): World {
    match op.action
    case CreateWorkPackage(fields, evidence) =>
      if op.identity in w.packages then w.(duplicates := w.duplicates + {op.identity})
      else w.(packages := w.packages[op.identity := Package(fields, NoParent, {}, New, Some(evidence))])
    case RecordAudit(_) => w
    case _ =>
      if op.identity !in w.packages then w
      else w.(packages := w.packages[op.identity := Change(op.action, w.packages[op.identity])])
  }

  function Change(action: Action, package: Package): Package {
    match action
    case UpdateManagedFields(fields) => package.(hash := fields)
    case SetParent(parent) => package.(parent := ParentFor(parent))
    case CreateRelation(relation) => package.(relations := package.relations + {relation})
    case RemoveManagedRelation(relation) => package.(relations := package.relations - {relation})
    case ReactivateWorkPackage => package.(status := Ready)
    case MarkSuperseded => package.(status := Superseded)
    case _ => package
  }

  function Fold(w: World, ops: seq<Operation>): World
    decreases |ops|
  {
    if ops == [] then w else Fold(Effect(ops[0], w), ops[1..])
  }

  lemma {:induction false} FoldAppend(w: World, a: seq<Operation>, b: seq<Operation>)
    ensures Fold(w, a + b) == Fold(Fold(w, a), b)
    decreases |a|
  {
    if a == [] {
      assert a + b == b;
    } else {
      assert (a + b)[1..] == a[1..] + b;
      FoldAppend(Effect(a[0], w), a[1..], b);
    }
  }

  /** The world after the first `k` operations. */
  function After(w: World, ops: seq<Operation>, k: nat): World
    requires k <= |ops|
  {
    Fold(w, ops[..k])
  }

  lemma AfterStep(w: World, ops: seq<Operation>, k: nat)
    requires k < |ops|
    ensures After(w, ops, k + 1) == Effect(ops[k], After(w, ops, k))
  {
    assert ops[..k + 1] == ops[..k] + [ops[k]];
    FoldAppend(w, ops[..k], [ops[k]]);
    assert Fold(After(w, ops, k), [ops[k]]) == Effect(ops[k], After(w, ops, k));
  }

  // ----- the publisher's check -----

  datatype Rejection =
    | IdentityExists | IdentityUnresolved | ManagedStateChanged
    | ParentTopologyChanged | RelationTopologyChanged

  function AssertCurrent(op: Operation, current: Option<Package>): Result<(), Rejection> {
    var pre := op.preconditions;
    if pre.identityAbsent && current.Some? then Err(IdentityExists)
    else if pre.identityResolved && current.None? then Err(IdentityUnresolved)
    else if current.Some? && pre.expectedHash.Some? && current.value.hash != pre.expectedHash.value then
      Err(ManagedStateChanged)
    else if current.None? || pre.topology.None? then Ok(())
    else if ParentIdentity(current.value) != pre.topology.value.parent
         || current.value.parent.UnmanagedParent? != pre.topology.value.unmanaged then Err(ParentTopologyChanged)
    else if current.value.relations != pre.topology.value.relations then Err(RelationTopologyChanged)
    else Ok(())
  }

  /** `adapter.resolve`, skipped for an audit record. A duplicated identity makes the read fail. */
  function PublisherCheck(op: Operation, w: World): bool {
    op.action.RecordAudit? || (op.identity !in w.duplicates && AssertCurrent(op, Find(w, op.identity)).Ok?)
  }

  // ----- the adapter's checks -----

  function TopologyAccepted(op: Operation, current: Package): bool {
    op.preconditions.topology.Some? &&
    var expected := op.preconditions.topology.value;
    && !(expected.parent.Some? && expected.unmanaged)
    && ParentIdentity(current) == expected.parent
    && current.parent.UnmanagedParent? == expected.unmanaged
    && current.relations == expected.relations
  }

  predicate Resolves(w: World, identity: Identity) {
    identity in w.packages && identity !in w.duplicates
  }

  /** The adapter reaches its commit request only when this holds. */
  predicate AdapterAccepts(op: Operation, w: World) {
    match op.action
    case RecordAudit(_) => true
    case CreateWorkPackage(_, _) => op.identity !in w.packages
    case CreateRelation(relation) =>
      Resolves(w, op.identity) && TopologyAccepted(op, w.packages[op.identity]) && Resolves(w, relation.target)
    case RemoveManagedRelation(relation) =>
      Resolves(w, op.identity) && TopologyAccepted(op, w.packages[op.identity]) && Resolves(w, relation.target)
    case _ =>
      && Resolves(w, op.identity)
      && TopologyAccepted(op, w.packages[op.identity])
      && (op.before.Some? ==> w.packages[op.identity].hash == op.before.value)
      && (op.action.SetParent? && op.action.parent.Some? ==> Resolves(w, op.action.parent.value))
  }

  /** Both checks pass: the operation is applied rather than rejected. */
  predicate Passes(op: Operation, w: World) {
    PublisherCheck(op, w) && AdapterAccepts(op, w)
  }

  // ----- the read-only recovery gate -----

  /** `Malformed` stands for the errors the gate raises instead of answering. */
  datatype Verdict = Landed | NotLanded | Malformed

  function Answer(b: bool): Verdict { if b then Landed else NotLanded }

  function CreatedStateMatches(op: Operation, current: Package): bool
    requires op.action.CreateWorkPackage?
  {
    && Some(current.hash) == op.after
    && current.evidence == Some(op.action.evidence)
    && current.parent.NoParent?
    && current.relations == {}
    && !current.status.Superseded?
  }

  function ParentMatches(current: Package, parent: Option<Identity>, unmanaged: bool): bool {
    if parent.None? then ParentIdentity(current).None? && (!current.parent.NoParent? == unmanaged)
    else !unmanaged && ParentIdentity(current) == parent
  }

  function PostconditionTopology(op: Operation, current: Package): Verdict {
    if op.preconditions.topology.None? then Malformed else
      var expected := op.preconditions.topology.value;
      match op.action
      case SetParent(parent) =>
        Answer(ParentMatches(current, parent, false) && current.relations == expected.relations)
      case CreateRelation(relation) =>
        if relation in expected.relations then Malformed
        else Answer(ParentMatches(current, expected.parent, expected.unmanaged)
                    && current.relations == expected.relations + {relation})
      case RemoveManagedRelation(relation) =>
        if relation !in expected.relations then Malformed
        else Answer(ParentMatches(current, expected.parent, expected.unmanaged)
                    && current.relations == expected.relations - {relation})
      case _ =>
        Answer(ParentMatches(current, expected.parent, expected.unmanaged)
               && current.relations == expected.relations)
  }

  function And(b: bool, v: Verdict): Verdict {
    if v.Malformed? then v else Answer(b && v.Landed?)
  }

  function Postcondition(op: Operation, w: World): Verdict {
    if op.action.RecordAudit? then NotLanded
    else if op.identity in w.duplicates then Malformed
    else if op.action.CreateWorkPackage? then
      Answer(op.identity in w.packages && CreatedStateMatches(op, w.packages[op.identity]))
    else if op.identity !in w.packages then NotLanded
    else
      var current := w.packages[op.identity];
      var topology := PostconditionTopology(op, current);
      match op.action
      case UpdateManagedFields(_) => And(Some(current.hash) == op.after, topology)
      case MarkSuperseded => And(current.status.Superseded?, topology)
      case ReactivateWorkPackage => And(current.status.Ready?, topology)
      case _ => topology
  }

  /** Only these re-state a value that the publisher's check does not look at. */
  predicate ChangesStatus(action: Action) {
    action.ReactivateWorkPackage? || action.MarkSuperseded?
  }
}
