/**
 The operations of internal/report/evidence_graph.go as they run: fields updated in place, identity
 maps filled while scanning, early returns on collisions. Each is proved to leave exactly the report
 that module EvidenceGraph specifies, on failure as well as on success.
 */
module GraphBuilder {
  import opened Text
  import opened Sorting
  import opened ReportModel
  import opened Encodings
  import opened EvidenceGraph

  // ---------- the public-reference table ----------

  function Reference(n: Node, digest: Digest): string {
    PublicReference(n.kind, n.id, digest)
  }

  /** The table of public references after the first n nodes. */
  ghost function Table(nodes: seq<Node>, n: nat, digest: Digest): map<string, string>
    requires n <= |nodes|
  {
    if n == 0 then map[]
    else Table(nodes, n - 1, digest)[Reference(nodes[n - 1], digest) := Identity(nodes[n - 1].kind, nodes[n - 1].id)]
  }

  ghost predicate Holds(identities: map<string, string>, nodes: seq<Node>, n: int, digest: Digest) {
    0 <= n <= CollisionFree(nodes, digest) && identities == Table(nodes, n, digest)
  }

  ghost predicate ListedKinds(nodes: seq<Node>) {
    forall k :: 0 <= k < |nodes| ==> ListedKind(nodes[k].kind)
  }

  ghost predicate Owned(identities: map<string, string>, n: Node, digest: Digest) {
    Reference(n, digest) in identities && identities[Reference(n, digest)] == Identity(n.kind, n.id)
  }

  ghost predicate OwnedBySome(nodes: seq<Node>, n: int, key: string, digest: Digest)
    requires n <= |nodes|
  {
    exists k :: 0 <= k < n && key == Reference(nodes[k], digest)
  }

  /** Short of a collision every scanned node owns its entry, and every entry is owned. */
  lemma {:induction false} TableOwners(nodes: seq<Node>, n: nat, digest: Digest)
    requires n <= CollisionFree(nodes, digest) && ListedKinds(nodes)
    ensures forall k :: 0 <= k < n ==> Owned(Table(nodes, n, digest), nodes[k], digest)
    ensures forall key <- Table(nodes, n, digest) :: OwnedBySome(nodes, n, key, digest)
  {
    hide CollisionFree, PublicReference, Identity;
    if n > 0 {
      TableOwners(nodes, n - 1, digest);
      CollisionFreeIsLeast(nodes, digest);
      assert !CollidesAt(nodes, n - 1, digest);
      forall key | key in Table(nodes, n, digest) ensures OwnedBySome(nodes, n, key, digest) {
        if key == Reference(nodes[n - 1], digest) {
        } else {
          assert OwnedBySome(nodes, n - 1, key, digest);
        }
      }
    }
  }

  lemma CollisionByTable(nodes: seq<Node>, n: nat, digest: Digest)
    requires n <= CollisionFree(nodes, digest) && n < |nodes| && ListedKinds(nodes)
    ensures (Reference(nodes[n], digest) in Table(nodes, n, digest)
      && Table(nodes, n, digest)[Reference(nodes[n], digest)] != Identity(nodes[n].kind, nodes[n].id)) <==>
         n == CollisionFree(nodes, digest)
  {
    var reference := Reference(nodes[n], digest);
    var table := Table(nodes, n, digest);
    TableOwners(nodes, n, digest);
    CollisionFreeIsLeast(nodes, digest);
    if reference in table && table[reference] != Identity(nodes[n].kind, nodes[n].id) {
      assert OwnedBySome(nodes, n, reference, digest);
      var k :| 0 <= k < n && reference == Reference(nodes[k], digest);
      assert Owned(table, nodes[k], digest);
      assert CollidesAt(nodes, n, digest);
    }
    if CollidesAt(nodes, n, digest) {
      var j :| 0 <= j < n && !nodes[j].SameIdentity(nodes[n]) && Reference(nodes[j], digest) == reference;
      assert Owned(table, nodes[j], digest);
      if Identity(nodes[j].kind, nodes[j].id) == Identity(nodes[n].kind, nodes[n].id) {
        IdentityInjective(nodes[j].kind, nodes[j].id, nodes[n].kind, nodes[n].id);
      }
    }
  }

  /** The builder's map from public references to the identity that owns each. */
  class IdentityTable {
    var identities: map<string, string>

    constructor ()
      ensures identities == map[]
    {
      identities := map[];
    }

    method Assign(kind: NodeKind, id: string, digest: Digest, ghost nodes: seq<Node>, ghost n: nat)
      returns (reference: string, ok: bool)
      requires n < |nodes| && nodes[n].kind == kind && nodes[n].id == id
      requires ListedKinds(nodes)
      requires Holds(identities, nodes, n, digest)
      modifies this
      ensures ok <==> n < CollisionFree(nodes, digest)
      ensures ok ==> Holds(identities, nodes, n + 1, digest)
      ensures reference == if ok then PublicReference(kind, id, digest) else ""
    {
      reference := PublicReference(kind, id, digest);
      var identity := Identity(kind, id);
      CollisionByTable(nodes, n, digest);
      if reference in identities && identities[reference] != identity {
        return "", false;
      }
      identities := identities[reference := identity];
      ok := true;
    }
  }

  /** This list's nodes stand at `base` in the builder's order, and every kind there is a listed one. */
  ghost predicate ListedAt<T>(nodes: seq<Node>, base: nat, os: seq<T>, node: T -> Node) {
    && base + |os| <= |nodes|
    && (forall j :: 0 <= j < |os| ==> nodes[base + j].SameIdentity(node(os[j])))
    && ListedKinds(nodes)
  }

  /** The first k nodes of a list have their references and the others are untouched. */
  ghost predicate ReferredUpTo<T>(
    was: seq<T>, now: seq<T>, node: T -> Node, put: (T, string) -> T, k: int, digest: Digest)
  {
    && |was| == |now|
    && (forall j :: 0 <= j < |was| ==> now[j] == if j < k then put(was[j], Reference(node(was[j]), digest)) else was[j])
  }

  ghost predicate PutsBack<T(!new)>(node: T -> Node, put: (T, string) -> T) {
    forall o :: put(o, node(o).reference) == o
  }

  lemma AllPutBack()
    ensures PutsBack(OperationAsNode, PutOperation) && PutsBack(ResourceAsNode, PutResource)
    ensures PutsBack(FindingAsNode, PutFinding) && PutsBack(UnknownAsNode, PutUnknown)
  {
  }

  lemma ReferTarget<T>(
    nodes: seq<Node>, base: nat, was: seq<T>, now: seq<T>, node: T -> Node, put: (T, string) -> T, k: nat,
    digest: Digest)
    requires ListedAt(nodes, base, was, node) && ReferredUpTo(was, now, node, put, k, digest) && k < |was|
    ensures nodes[base + k].SameIdentity(node(now[k]))
    ensures ListedKinds(nodes)
  {
  }

  lemma ReferOneMore<T>(was: seq<T>, now: seq<T>, node: T -> Node, put: (T, string) -> T, k: nat, digest: Digest)
    requires ReferredUpTo(was, now, node, put, k, digest) && k < |was|
    ensures ReferredUpTo(was, now[k := put(now[k], Reference(node(now[k]), digest))], node, put, k + 1, digest)
  {
  }

  lemma ReferDone<T>(was: seq<T>, now: seq<T>, node: T -> Node, put: (T, string) -> T, n: int, digest: Digest)
    requires ReferredUpTo(was, now, node, put, |was|, digest) && |was| <= n
    ensures now == AssignAll(was, node, put, n, digest)
  {
  }

  lemma ReferFailed<T(!new)>(was: seq<T>, now: seq<T>, node: T -> Node, put: (T, string) -> T, k: nat, digest: Digest)
    requires ReferredUpTo(was, now, node, put, k, digest) && k < |was|
    requires PutsBack(node, put)
    ensures now[k := put(now[k], "")] == AssignAll(was, node, put, k, digest)
  {
  }

  lemma ReferNone<T(!new)>(os: seq<T>, node: T -> Node, put: (T, string) -> T, n: int, digest: Digest)
    requires n < 0
    requires PutsBack(node, put)
    ensures AssignAll(os, node, put, n, digest) == os
  {
  }

  // ---------- the edge collector ----------

  ghost predicate Producible(ts: seq<EdgeTuple>, digest: Digest) {
    |ts| <= MAX_PRODUCED_RELATIONS && Distinguished(ts, digest)
  }

  lemma PrefixProducible(ts: seq<EdgeTuple>, more: seq<EdgeTuple>, digest: Digest)
    requires ts <= more && Producible(more, digest)
    ensures Producible(ts, digest)
  {
    forall i, j | 0 <= i < |ts| && 0 <= j < |ts| && RelationshipID(ts[i], digest) == RelationshipID(ts[j], digest)
      ensures ts[i] == ts[j]
    {
      assert more[i] == ts[i] && more[j] == ts[j];
    }
  }

  ghost predicate NamedBySome(ts: seq<EdgeTuple>, key: string, digest: Digest) {
    exists k :: 0 <= k < |ts| && key == RelationshipID(ts[k], digest)
  }

  /** A table of edge IDs holds exactly these tuples. */
  ghost predicate Names(identities: map<string, string>, ts: seq<EdgeTuple>, digest: Digest) {
    && (forall k :: 0 <= k < |ts| ==> Named(identities, ts[k], digest))
    && (forall key <- identities :: NamedBySome(ts, key, digest))
  }

  ghost predicate Named(identities: map<string, string>, t: EdgeTuple, digest: Digest) {
    RelationshipID(t, digest) in identities && identities[RelationshipID(t, digest)] == TupleText(t)
  }

  lemma ClashByTable(identities: map<string, string>, ts: seq<EdgeTuple>, t: EdgeTuple, digest: Digest)
    requires Names(identities, ts, digest) && Distinguished(ts, digest)
    requires PlainTuple(t) && forall k :: 0 <= k < |ts| ==> PlainTuple(ts[k])
    ensures (RelationshipID(t, digest) in identities && identities[RelationshipID(t, digest)] != TupleText(t))
      <==> !Distinguished(ts + [t], digest)
  {
    hide RelationshipID, TupleText;
    var id := RelationshipID(t, digest);
    var more := ts + [t];
    if id in identities && identities[id] != TupleText(t) {
      assert NamedBySome(ts, id, digest);
      var k :| 0 <= k < |ts| && id == RelationshipID(ts[k], digest);
      assert Named(identities, ts[k], digest);
      assert more[k] == ts[k] && more[|ts|] == t;
    }
    if !(id in identities && identities[id] != TupleText(t)) {
      forall i | 0 <= i < |ts| && RelationshipID(ts[i], digest) == id ensures ts[i] == t {
        assert Named(identities, ts[i], digest);
        TupleTextInjective(ts[i], t);
      }
    }
  }

  lemma NamesOneMore(identities: map<string, string>, ts: seq<EdgeTuple>, t: EdgeTuple, digest: Digest)
    requires Names(identities, ts, digest)
    requires RelationshipID(t, digest) in identities ==> identities[RelationshipID(t, digest)] == TupleText(t)
    ensures Names(identities[RelationshipID(t, digest) := TupleText(t)], ts + [t], digest)
  {
    var id := RelationshipID(t, digest);
    var table := identities[id := TupleText(t)];
    var more := ts + [t];
    forall k | 0 <= k < |more| ensures Named(table, more[k], digest) {
      if k < |ts| {
        assert Named(identities, ts[k], digest);
      }
    }
    forall key | key in table ensures NamedBySome(more, key, digest) {
      if key == id {
        assert more[|ts|] == t;
      } else {
        assert NamedBySome(ts, key, digest);
        var k :| 0 <= k < |ts| && key == RelationshipID(ts[k], digest);
        assert more[k] == ts[k];
      }
    }
  }

  /** The slice and the map that `appendRelationship` closes over, after appending these tuples. */
  ghost predicate Collected(
    relationships: seq<Relationship>, identities: map<string, string>, ts: seq<EdgeTuple>, digest: Digest)
  {
    && relationships == BaseEdges(ts, digest)
    && Names(identities, ts, digest)
    && Producible(ts, digest)
    && forall k :: 0 <= k < |ts| ==> PlainTuple(ts[k])
  }

  lemma CollectedOneMore(
    relationships: seq<Relationship>, identities: map<string, string>, ts: seq<EdgeTuple>, t: EdgeTuple,
    digest: Digest)
    requires Collected(relationships, identities, ts, digest) && PlainTuple(t)
    requires |ts| < MAX_PRODUCED_RELATIONS && Distinguished(ts + [t], digest)
    ensures Collected(relationships + [Edge(t, None, digest)],
                      identities[RelationshipID(t, digest) := TupleText(t)], ts + [t], digest)
  {
    ClashByTable(identities, ts, t, digest);
    NamesOneMore(identities, ts, t, digest);
    assert relationships + [Edge(t, None, digest)] == BaseEdges(ts + [t], digest);
  }

  class EdgeCollector {
    var relationships: seq<Relationship>
    var identities: map<string, string>

    constructor (ghost digest: Digest)
      ensures Collected(relationships, identities, [], digest)
    {
      relationships := [];
      identities := map[];
    }

    method Append(t: EdgeTuple, digest: Digest, ghost ts: seq<EdgeTuple>) returns (ok: bool)
      requires Collected(relationships, identities, ts, digest) && PlainTuple(t)
      modifies this
      ensures ok <==> Producible(ts + [t], digest)
      ensures ok ==> Collected(relationships, identities, ts + [t], digest)
    {
      if |relationships| >= MAX_PRODUCED_RELATIONS {
        return false;
      }
      var identity := TupleText(t);
      var id := RelationshipID(t, digest);
      ClashByTable(identities, ts, t, digest);
      if id in identities && identities[id] != identity {
        return false;
      }
      CollectedOneMore(relationships, identities, ts, t, digest);
      identities := identities[id := identity];
      relationships := relationships + [Edge(t, None, digest)];
      ok := true;
    }
  }

  // ---------- the report being built ----------

  lemma MapIs<T, U>(xs: seq<T>, ys: seq<U>, f: T -> U)
    requires |xs| == |ys| && forall i :: 0 <= i < |xs| ==> ys[i] == f(xs[i])
    ensures ys == Map(xs, f)
  {
  }

  method BindAll(evidence: seq<Evidence>, p: Provenance, external: string) returns (bound: seq<Evidence>)
    ensures bound == Map(evidence, e => Bind(e, p, external))
  {
    bound := evidence;
    for k := 0 to |evidence|
      invariant |bound| == |evidence|
      invariant forall j :: 0 <= j < k ==> bound[j] == Bind(evidence[j], p, external)
      invariant forall j :: k <= j < |evidence| ==> bound[j] == evidence[j]
    {
      bound := bound[k := Bind(bound[k], p, external)];
    }
    MapIs(evidence, bound, e => Bind(e, p, external));
  }

  method BindOrigins(origins: seq<ValueOrigin>, p: Provenance, external: string) returns (bound: seq<ValueOrigin>)
    ensures bound == Map(origins, v => BindOrigin(v, p, external))
  {
    bound := origins;
    for k := 0 to |origins|
      invariant |bound| == |origins|
      invariant forall j :: 0 <= j < k ==> bound[j] == BindOrigin(origins[j], p, external)
      invariant forall j :: k <= j < |origins| ==> bound[j] == origins[j]
    {
      bound := bound[k := BindOrigin(bound[k], p, external)];
    }
    MapIs(origins, bound, v => BindOrigin(v, p, external));
  }

  function LookUp(index: map<string, string>, id: string): string {
    if id in index then index[id] else ""
  }

  /** The builder's map from operation IDs to references. */
  ghost predicate Indexes(index: map<string, string>, os: seq<Operation>) {
    forall id :: LookUp(index, id) == OperationReference(os, id)
  }

  lemma IndexesOneMore(index: map<string, string>, os: seq<Operation>, k: nat)
    requires k < |os| && Indexes(index, os[..k])
    ensures Indexes(index[os[k].id := os[k].reference], os[..k + 1])
  {
    TakeMore(os, k);
    var more := index[os[k].id := os[k].reference];
    forall id ensures LookUp(more, id) == OperationReference(os[..k + 1], id) {
      assert LookUp(index, id) == OperationReference(os[..k], id);
      assert os[..k + 1][..k] == os[..k];
    }
  }

  ghost predicate PlainOperations(os: seq<Operation>) {
    forall i :: 0 <= i < |os| ==> NulFree(os[i].reference)
  }

  lemma {:induction false} PlainOperationReference(os: seq<Operation>, id: string)
    requires PlainOperations(os)
    ensures NulFree(OperationReference(os, id))
  {
    if os != [] {
      PlainOperationReference(os[..|os| - 1], id);
    }
  }

  lemma PrefixRefused(ts: seq<EdgeTuple>, xs: seq<EdgeTuple>, k: nat, digest: Digest)
    requires k < |xs| && !Producible(ts + xs[..k] + [xs[k]], digest)
    ensures !Producible(ts + xs, digest)
  {
    assert ts + xs[..k] + [xs[k]] <= ts + xs;
    if Producible(ts + xs, digest) {
      PrefixProducible(ts + xs[..k] + [xs[k]], ts + xs, digest);
    }
  }

  lemma TakeRefused(xs: seq<EdgeTuple>, k: nat, digest: Digest)
    requires k < |xs| && !Producible(xs[..k + 1], digest)
    ensures !Producible(xs, digest)
  {
    assert xs[..k + 1] <= xs;
    if Producible(xs, digest) {
      PrefixProducible(xs[..k + 1], xs, digest);
    }
  }

  lemma ConcatMore(ts: seq<EdgeTuple>, xs: seq<EdgeTuple>, k: nat)
    requires k < |xs|
    ensures ts + xs[..k + 1] == ts + xs[..k] + [xs[k]]
  {
  }

  lemma ConcatRefused(ts: seq<EdgeTuple>, xs: seq<EdgeTuple>, digest: Digest)
    requires !Producible(ts, digest)
    ensures !Producible(ts + xs, digest)
  {
    if Producible(ts + xs, digest) {
      PrefixProducible(ts, ts + xs, digest);
    }
  }

  /** The inner loop over a finding's supporting or an unknown's affected operations. */
  method AppendSupport(collector: EdgeCollector, index: map<string, string>, relation: RelationType, kind: NodeKind,
    from: string,
                       ids: seq<string>, digest: Digest, ghost os: seq<Operation>, ghost ts: seq<EdgeTuple>)
                         returns (ok: bool)
    requires Collected(collector.relationships, collector.identities, ts, digest)
    requires Indexes(index, os) && PlainOperations(os) && NulFree(from) && ListedKind(kind)
    requires !relation.UnlistedRelation?
    modifies collector
    ensures ok ==>
      Collected(collector.relationships, collector.identities,
                ts + SupportTuples(relation, kind, from, os, ids), digest)
    ensures ok <==> Producible(ts + SupportTuples(relation, kind, from, os, ids), digest)
  {
    ghost var xs := SupportTuples(relation, kind, from, os, ids);
    var k := 0;
    assert ts + xs[..0] == ts;
    while k < |ids|
      invariant 0 <= k <= |ids|
      invariant Collected(collector.relationships, collector.identities, ts + xs[..k], digest)
    {
      PlainOperationReference(os, ids[k]);
      var tuple := EdgeTuple(relation, kind, from, OperationNode, LookUp(index, ids[k]));
      assert tuple == xs[k];
      var appended := collector.Append(tuple, digest, ts + xs[..k]);
      if !appended {
        PrefixRefused(ts, xs, k, digest);
        return false;
      }
      ConcatMore(ts, xs, k);
      k := k + 1;
    }
    assert xs[..k] == xs;
    ok := true;
  }

  ghost predicate PlainReferences(r: Report) {
    && PlainOperations(r.operations)
    && (forall i :: 0 <= i < |r.resources| ==> NulFree(r.resources[i].reference))
    && (forall i :: 0 <= i < |r.findings| ==> NulFree(r.findings[i].reference))
    && (forall i :: 0 <= i < |r.unknowns| ==> NulFree(r.unknowns[i].reference))
  }

  lemma FindingsMore(os: seq<Operation>, fs: seq<Finding>, k: nat, ts: seq<EdgeTuple>)
    requires k < |fs|
    ensures ts + FindingsTuples(os, fs[..k + 1]) == ts + FindingsTuples(os, fs[..k]) + FindingTuples(os, fs[k])
  {
    assert fs[..k + 1][..k] == fs[..k];
  }

  lemma UnknownsMore(os: seq<Operation>, us: seq<Unknown>, k: nat, ts: seq<EdgeTuple>)
    requires k < |us|
    ensures ts + UnknownsTuples(os, us[..k + 1]) == ts + UnknownsTuples(os, us[..k]) + UnknownTuples(os, us[k])
  {
    assert us[..k + 1][..k] == us[..k];
  }

  lemma {:induction false} FindingsRefused(
    os: seq<Operation>, fs: seq<Finding>, k: nat, ts: seq<EdgeTuple>, digest: Digest)
    requires k <= |fs| && !Producible(ts + FindingsTuples(os, fs[..k]), digest)
    ensures !Producible(ts + FindingsTuples(os, fs), digest)
    decreases |fs| - k
  {
    if k < |fs| {
      FindingsMore(os, fs, k, ts);
      ConcatRefused(ts + FindingsTuples(os, fs[..k]), FindingTuples(os, fs[k]), digest);
      FindingsRefused(os, fs, k + 1, ts, digest);
    } else {
      assert fs[..k] == fs;
    }
  }

  lemma {:induction false} UnknownsRefused(
    os: seq<Operation>, us: seq<Unknown>, k: nat, ts: seq<EdgeTuple>, digest: Digest)
    requires k <= |us| && !Producible(ts + UnknownsTuples(os, us[..k]), digest)
    ensures !Producible(ts + UnknownsTuples(os, us), digest)
    decreases |us| - k
  {
    if k < |us| {
      UnknownsMore(os, us, k, ts);
      ConcatRefused(ts + UnknownsTuples(os, us[..k]), UnknownTuples(os, us[k]), digest);
      UnknownsRefused(os, us, k + 1, ts, digest);
    } else {
      assert us[..k] == us;
    }
  }

  lemma NodesAt(r: Report)
    ensures ListedAt(Nodes(r), 0, r.operations, OperationAsNode)
    ensures ListedAt(Nodes(r), |r.operations|, r.resources, ResourceAsNode)
    ensures ListedAt(Nodes(r), |r.operations| + |r.resources|, r.findings, FindingAsNode)
    ensures ListedAt(Nodes(r), |r.operations| + |r.resources| + |r.findings|, r.unknowns, UnknownAsNode)
    ensures |Nodes(r)| == |r.operations| + |r.resources| + |r.findings| + |r.unknowns|
  {
  }

  lemma ReferencedIsPlain(r: Report, digest: Digest)
    ensures PlainReferences(Referenced(r, |Nodes(r)|, digest))
  {
    NodesAt(r);
  }

  lemma BaseEdgesCoherent(ts: seq<EdgeTuple>, digest: Digest)
    requires Distinguished(ts, digest)
    ensures Coherent(BaseEdges(ts, digest))
  {
  }

  method SortRelationships(rs: seq<Relationship>) returns (sorted: seq<Relationship>)
    ensures SortedPermutation(rs, sorted, IDLess)
    ensures Coherent(rs) ==> sorted == SortByID(rs)
  {
    KeyOrder((e: Relationship) => e.id, IDLess);
    sorted := SortSlice(rs, IDLess);
    if Coherent(rs) {
      SortedByIDIsUnique(rs, sorted);
    }
  }

  /** A report whose graph fields are updated in place; `rest` is what these operations only read. */
  class LiveReport {
    const rest: Report
    var operations: seq<Operation>
    var resources: seq<Resource>
    var findings: seq<Finding>
    var unknowns: seq<Unknown>
    var relationships: seq<Relationship>

    constructor (r: Report)
      ensures Snapshot() == r
    {
      rest := r;
      operations, resources, findings := r.operations, r.resources, r.findings;
      unknowns, relationships := r.unknowns, r.relationships;
    }

    function Snapshot(): Report
      reads this
    {
      rest.(operations := operations, resources := resources, findings := findings, unknowns := unknowns,
            relationships := relationships)
    }

    method LeastExternalInput() returns (external: string)
      ensures external == ExternalInput(rest.inputs)
    {
      external := "";
      for k := 0 to |rest.inputs|
        invariant external == ExternalInput(rest.inputs[..k])
      {
        var input := rest.inputs[k];
        assert rest.inputs[..k + 1][..k] == rest.inputs[..k];
        if input.inputType == OmarchyInput && (external == "" || Less(input.id, external)) {
          external := input.id;
        }
      }
      assert rest.inputs[..|rest.inputs|] == rest.inputs;
    }

    method BindOperations(external: string)
      modifies this`operations
      ensures operations == Map(old(operations), o => BindOperation(o, external))
    {
      for k := 0 to |operations|
        invariant |operations| == |old(operations)|
        invariant forall j :: 0 <= j < k ==> operations[j] == BindOperation(old(operations)[j], external)
        invariant forall j :: k <= j < |operations| ==> operations[j] == old(operations)[j]
      {
        operations := operations[k := BindOperation(operations[k], external)];
      }
      MapIs(old(operations), operations, o => BindOperation(o, external));
    }

    method BindResources(external: string)
      modifies this`resources
      ensures resources == Map(old(resources), o => BindResource(o, external))
    {
      for k := 0 to |resources|
        invariant |resources| == |old(resources)|
        invariant forall j :: 0 <= j < k ==> resources[j] == BindResource(old(resources)[j], external)
        invariant forall j :: k <= j < |resources| ==> resources[j] == old(resources)[j]
      {
        resources := resources[k := BindResource(resources[k], external)];
      }
      MapIs(old(resources), resources, o => BindResource(o, external));
    }

    method BindFindings(external: string)
      modifies this`findings
      ensures findings == Map(old(findings), o => BindFinding(o, external))
    {
      for k := 0 to |findings|
        invariant |findings| == |old(findings)|
        invariant forall j :: 0 <= j < k ==> findings[j] == BindFinding(old(findings)[j], external)
        invariant forall j :: k <= j < |findings| ==> findings[j] == old(findings)[j]
      {
        var evidence := BindAll(findings[k].evidence, findings[k].provenance, external);
        findings := findings[k := findings[k].(evidence := evidence)];
      }
      MapIs(old(findings), findings, o => BindFinding(o, external));
    }

    method BindUnknowns(external: string)
      modifies this`unknowns
      ensures unknowns == Map(old(unknowns), o => BindUnknown(o, external))
    {
      for k := 0 to |unknowns|
        invariant |unknowns| == |old(unknowns)|
        invariant forall j :: 0 <= j < k ==> unknowns[j] == BindUnknown(old(unknowns)[j], external)
        invariant forall j :: k <= j < |unknowns| ==> unknowns[j] == old(unknowns)[j]
      {
        var evidence := BindAll(unknowns[k].evidence, unknowns[k].provenance, external);
        var origins := BindOrigins(unknowns[k].origins, unknowns[k].provenance, external);
        unknowns := unknowns[k := unknowns[k].(evidence := evidence, origins := origins)];
      }
      MapIs(old(unknowns), unknowns, o => BindUnknown(o, external));
    }

    method BindEvidenceInputs()
      modifies this`operations, this`resources, this`findings, this`unknowns
      ensures Snapshot() == Bound(old(Snapshot()))
    {
      var external := LeastExternalInput();
      BindOperations(external);
      BindResources(external);
      BindFindings(external);
      BindUnknowns(external);
    }

    method ReferOperations(table: IdentityTable, digest: Digest, ghost nodes: seq<Node>, ghost base: nat)
      returns (ok: bool)
      requires base + |operations| <= |nodes|
      requires ListedAt(nodes, base, operations, OperationAsNode)
      requires Holds(table.identities, nodes, base, digest)
      modifies this`operations, table
      ensures operations ==
        AssignAll(old(operations), OperationAsNode, PutOperation, CollisionFree(nodes, digest) - base, digest)
      ensures ok <==> base + |operations| <= CollisionFree(nodes, digest)
      ensures ok ==> Holds(table.identities, nodes, base + |operations|, digest)
    {
      hide CollisionFree, AssignAll, Table, PublicReference;
      ghost var was := operations;
      var k := 0;
      ghost var at := base;
      while k < |operations|
        invariant 0 <= k <= |operations|
        invariant at == base + k && Holds(table.identities, nodes, at, digest)
        invariant ReferredUpTo(was, operations, OperationAsNode, PutOperation, k, digest)
      {
        ReferTarget(nodes, base, was, operations, OperationAsNode, PutOperation, k, digest);
        var reference, accepted := table.Assign(OperationNode, operations[k].id, digest, nodes, at);
        ghost var before := operations;
        operations := operations[k := operations[k].(reference := reference)];
        if !accepted {
          AllPutBack();
          ReferFailed(was, before, OperationAsNode, PutOperation, k, digest);
          return false;
        }
        ReferOneMore(was, before, OperationAsNode, PutOperation, k, digest);
        k, at := k + 1, at + 1;
      }
      ReferDone(was, operations, OperationAsNode, PutOperation, CollisionFree(nodes, digest) - base, digest);
      ok := true;
    }

    method ReferResources(table: IdentityTable, digest: Digest, ghost nodes: seq<Node>, ghost base: nat)
      returns (ok: bool)
      requires base + |resources| <= |nodes|
      requires ListedAt(nodes, base, resources, ResourceAsNode)
      requires Holds(table.identities, nodes, base, digest)
      modifies this`resources, table
      ensures resources ==
        AssignAll(old(resources), ResourceAsNode, PutResource, CollisionFree(nodes, digest) - base, digest)
      ensures ok <==> base + |resources| <= CollisionFree(nodes, digest)
      ensures ok ==> Holds(table.identities, nodes, base + |resources|, digest)
    {
      hide CollisionFree, AssignAll, Table, PublicReference;
      ghost var was := resources;
      var k := 0;
      ghost var at := base;
      while k < |resources|
        invariant 0 <= k <= |resources|
        invariant at == base + k && Holds(table.identities, nodes, at, digest)
        invariant ReferredUpTo(was, resources, ResourceAsNode, PutResource, k, digest)
      {
        ReferTarget(nodes, base, was, resources, ResourceAsNode, PutResource, k, digest);
        var reference, accepted := table.Assign(ResourceNode, resources[k].id, digest, nodes, at);
        ghost var before := resources;
        resources := resources[k := resources[k].(reference := reference)];
        if !accepted {
          AllPutBack();
          ReferFailed(was, before, ResourceAsNode, PutResource, k, digest);
          return false;
        }
        ReferOneMore(was, before, ResourceAsNode, PutResource, k, digest);
        k, at := k + 1, at + 1;
      }
      ReferDone(was, resources, ResourceAsNode, PutResource, CollisionFree(nodes, digest) - base, digest);
      ok := true;
    }

    method ReferFindings(table: IdentityTable, digest: Digest, ghost nodes: seq<Node>, ghost base: nat)
      returns (ok: bool)
      requires base + |findings| <= |nodes|
      requires ListedAt(nodes, base, findings, FindingAsNode)
      requires Holds(table.identities, nodes, base, digest)
      modifies this`findings, table
      ensures findings ==
        AssignAll(old(findings), FindingAsNode, PutFinding, CollisionFree(nodes, digest) - base, digest)
      ensures ok <==> base + |findings| <= CollisionFree(nodes, digest)
      ensures ok ==> Holds(table.identities, nodes, base + |findings|, digest)
    {
      hide CollisionFree, AssignAll, Table, PublicReference;
      ghost var was := findings;
      var k := 0;
      ghost var at := base;
      while k < |findings|
        invariant 0 <= k <= |findings|
        invariant at == base + k && Holds(table.identities, nodes, at, digest)
        invariant ReferredUpTo(was, findings, FindingAsNode, PutFinding, k, digest)
      {
        ReferTarget(nodes, base, was, findings, FindingAsNode, PutFinding, k, digest);
        var reference, accepted := table.Assign(FindingNode, findings[k].id, digest, nodes, at);
        ghost var before := findings;
        findings := findings[k := findings[k].(reference := reference)];
        if !accepted {
          AllPutBack();
          ReferFailed(was, before, FindingAsNode, PutFinding, k, digest);
          return false;
        }
        ReferOneMore(was, before, FindingAsNode, PutFinding, k, digest);
        k, at := k + 1, at + 1;
      }
      ReferDone(was, findings, FindingAsNode, PutFinding, CollisionFree(nodes, digest) - base, digest);
      ok := true;
    }

    method ReferUnknowns(table: IdentityTable, digest: Digest, ghost nodes: seq<Node>, ghost base: nat)
      returns (ok: bool)
      requires base + |unknowns| <= |nodes|
      requires ListedAt(nodes, base, unknowns, UnknownAsNode)
      requires Holds(table.identities, nodes, base, digest)
      modifies this`unknowns, table
      ensures unknowns ==
        AssignAll(old(unknowns), UnknownAsNode, PutUnknown, CollisionFree(nodes, digest) - base, digest)
      ensures ok <==> base + |unknowns| <= CollisionFree(nodes, digest)
      ensures ok ==> Holds(table.identities, nodes, base + |unknowns|, digest)
    {
      hide CollisionFree, AssignAll, Table, PublicReference;
      ghost var was := unknowns;
      var k := 0;
      ghost var at := base;
      while k < |unknowns|
        invariant 0 <= k <= |unknowns|
        invariant at == base + k && Holds(table.identities, nodes, at, digest)
        invariant ReferredUpTo(was, unknowns, UnknownAsNode, PutUnknown, k, digest)
      {
        ReferTarget(nodes, base, was, unknowns, UnknownAsNode, PutUnknown, k, digest);
        var reference, accepted := table.Assign(UnknownNode, unknowns[k].id, digest, nodes, at);
        ghost var before := unknowns;
        unknowns := unknowns[k := unknowns[k].(reference := reference)];
        if !accepted {
          AllPutBack();
          ReferFailed(was, before, UnknownAsNode, PutUnknown, k, digest);
          return false;
        }
        ReferOneMore(was, before, UnknownAsNode, PutUnknown, k, digest);
        k, at := k + 1, at + 1;
      }
      ReferDone(was, unknowns, UnknownAsNode, PutUnknown, CollisionFree(nodes, digest) - base, digest);
      ok := true;
    }

    method IndexOperations() returns (index: map<string, string>)
      ensures Indexes(index, operations)
    {
      index := map[];
      for k := 0 to |operations|
        invariant Indexes(index, operations[..k])
      {
        IndexesOneMore(index, operations, k);
        index := index[operations[k].id := operations[k].reference];
      }
      assert operations[..|operations|] == operations;
    }

    method AppendResourceEdges(collector: EdgeCollector, index: map<string, string>, digest: Digest) returns (ok: bool)
      requires Collected(collector.relationships, collector.identities, [], digest)
      requires Indexes(index, operations) && PlainReferences(Snapshot())
      modifies collector
      ensures ok ==>
        Collected(collector.relationships, collector.identities, ResourceTuples(operations, resources), digest)
      ensures ok <==> Producible(ResourceTuples(operations, resources), digest)
    {
      ghost var xs := ResourceTuples(operations, resources);
      var k := 0;
      while k < |resources|
        invariant 0 <= k <= |resources|
        invariant Collected(collector.relationships, collector.identities, xs[..k], digest)
      {
        var resource := resources[k];
        PlainOperationReference(operations, resource.relatedOperation);
        var tuple := EdgeTuple(DerivedFrom, ResourceNode, resource.reference, OperationNode,
          LookUp(index, resource.relatedOperation));
        assert tuple == xs[k];
        var appended := collector.Append(tuple, digest, xs[..k]);
        TakeMore(xs, k);
        if !appended {
          TakeRefused(xs, k, digest);
          return false;
        }
        k := k + 1;
      }
      assert xs[..k] == xs;
      ok := true;
    }

    method AppendFindingEdges(
      collector: EdgeCollector, index: map<string, string>, digest: Digest, ghost ts: seq<EdgeTuple>)
      returns (ok: bool)
      requires Collected(collector.relationships, collector.identities, ts, digest)
      requires Indexes(index, operations) && PlainReferences(Snapshot())
      modifies collector
      ensures ok ==>
        Collected(collector.relationships, collector.identities, ts + FindingsTuples(operations, findings), digest)
      ensures ok <==> Producible(ts + FindingsTuples(operations, findings), digest)
    {
      ghost var done := ts;
      assert ts + FindingsTuples(operations, findings[..0]) == ts;
      for k := 0 to |findings|
        invariant done == ts + FindingsTuples(operations, findings[..k])
        invariant Collected(collector.relationships, collector.identities, done, digest)
      {
        var finding := findings[k];
        var relation := EstablishedBy;
        if finding.claim == Inference {
          relation := InferredFrom;
        }
        FindingsMore(operations, findings, k, ts);
        ok := AppendSupport(collector, index, relation, FindingNode, finding.reference, finding.related, digest,
          operations, done);
        done := done + FindingTuples(operations, finding);
        if !ok {
          FindingsRefused(operations, findings, k + 1, ts, digest);
          return;
        }
      }
      assert findings[..|findings|] == findings;
      ok := true;
    }

    method AppendUnknownEdges(
      collector: EdgeCollector, index: map<string, string>, digest: Digest, ghost ts: seq<EdgeTuple>)
      returns (ok: bool)
      requires Collected(collector.relationships, collector.identities, ts, digest)
      requires Indexes(index, operations) && PlainReferences(Snapshot())
      modifies collector
      ensures ok ==>
        Collected(collector.relationships, collector.identities, ts + UnknownsTuples(operations, unknowns), digest)
      ensures ok <==> Producible(ts + UnknownsTuples(operations, unknowns), digest)
    {
      ghost var done := ts;
      assert ts + UnknownsTuples(operations, unknowns[..0]) == ts;
      for k := 0 to |unknowns|
        invariant done == ts + UnknownsTuples(operations, unknowns[..k])
        invariant Collected(collector.relationships, collector.identities, done, digest)
      {
        var unknown := unknowns[k];
        UnknownsMore(operations, unknowns, k, ts);
        ok := AppendSupport(collector, index, UnknownBecause, UnknownNode, unknown.reference, unknown.affected, digest,
          operations, done);
        done := done + UnknownTuples(operations, unknown);
        if !ok {
          UnknownsRefused(operations, unknowns, k + 1, ts, digest);
          return;
        }
      }
      assert unknowns[..|unknowns|] == unknowns;
      ok := true;
    }

    /** The operations' and resources' share of the assignment; findings and unknowns follow. */
    method ReferObservations(table: IdentityTable, digest: Digest, ghost nodes: seq<Node>, ghost n: nat)
      returns (ok: bool)
      requires ListedAt(nodes, 0, operations, OperationAsNode)
      requires ListedAt(nodes, |operations|, resources, ResourceAsNode)
      requires table.identities == map[] && n == CollisionFree(nodes, digest)
      modifies this`operations, this`resources, table
      ensures operations == AssignAll(old(operations), OperationAsNode, PutOperation, n, digest)
      ensures resources == AssignAll(old(resources), ResourceAsNode, PutResource, n - |operations|, digest)
      ensures ok <==> |operations| + |resources| <= n
      ensures ok ==> Holds(table.identities, nodes, |operations| + |resources|, digest)
    {
      hide CollisionFree, AssignAll;
      ok := ReferOperations(table, digest, nodes, 0);
      if !ok {
        AllPutBack();
        ReferNone(resources, ResourceAsNode, PutResource, n - |operations|, digest);
        return;
      }
      ok := ReferResources(table, digest, nodes, |operations|);
    }

    method ReferConclusions(table: IdentityTable, digest: Digest, ghost nodes: seq<Node>, ghost base: nat, ghost n: nat)
      returns (ok: bool)
      requires ListedAt(nodes, base, findings, FindingAsNode)
      requires ListedAt(nodes, base + |findings|, unknowns, UnknownAsNode)
      requires Holds(table.identities, nodes, base, digest) && n == CollisionFree(nodes, digest)
      modifies this`findings, this`unknowns, table
      ensures findings == AssignAll(old(findings), FindingAsNode, PutFinding, n - base, digest)
      ensures unknowns == AssignAll(old(unknowns), UnknownAsNode, PutUnknown, n - base - |findings|, digest)
      ensures ok <==> base + |findings| + |unknowns| <= n
    {
      hide CollisionFree, AssignAll, Table;
      ok := ReferFindings(table, digest, nodes, base);
      if !ok {
        AllPutBack();
        ReferNone(unknowns, UnknownAsNode, PutUnknown, n - base - |findings|, digest);
        return;
      }
      ok := ReferUnknowns(table, digest, nodes, base + |findings|);
    }

    method AssignInOrder(digest: Digest, ghost nodes: seq<Node>, ghost base: nat) returns (ok: bool)
      requires ListedAt(nodes, 0, operations, OperationAsNode)
      requires ListedAt(nodes, |operations|, resources, ResourceAsNode)
      requires base == |operations| + |resources| && |nodes| == base + |findings| + |unknowns|
      requires ListedAt(nodes, base, findings, FindingAsNode)
      requires ListedAt(nodes, base + |findings|, unknowns, UnknownAsNode)
      modifies this`operations, this`resources, this`findings, this`unknowns
      ensures Snapshot() == Referenced(old(Snapshot()), CollisionFree(nodes, digest), digest)
      ensures ok <==> CollisionFree(nodes, digest) == |nodes|
    {
      hide CollisionFree, AssignAll, ListedAt, Holds, PutsBack;
      ghost var n := CollisionFree(nodes, digest);
      var table := new IdentityTable();
      ok := ReferObservations(table, digest, nodes, n);
      if ok {
        ok := ReferConclusions(table, digest, nodes, base, n);
      } else {
        AllPutBack();
        ReferNone(findings, FindingAsNode, PutFinding, n - base, digest);
        ReferNone(unknowns, UnknownAsNode, PutUnknown, n - base - |findings|, digest);
      }
    }

    method CollectBaseEdges(digest: Digest) returns (edges: seq<Relationship>, ok: bool)
      requires PlainReferences(Snapshot())
      ensures ok <==> Producible(BaseTuples(Snapshot()), digest)
      ensures ok ==> edges == BaseEdges(BaseTuples(Snapshot()), digest)
    {
      edges := [];
      var index := IndexOperations();
      var collector := new EdgeCollector(digest);
      ghost var ts := ResourceTuples(operations, resources);
      ghost var us := ts + FindingsTuples(operations, findings);
      ok := AppendResourceEdges(collector, index, digest);
      if !ok {
        ConcatRefused(ts, FindingsTuples(operations, findings), digest);
        ConcatRefused(us, UnknownsTuples(operations, unknowns), digest);
        return;
      }
      ok := AppendFindingEdges(collector, index, digest, ts);
      if !ok {
        ConcatRefused(us, UnknownsTuples(operations, unknowns), digest);
        return;
      }
      ok := AppendUnknownEdges(collector, index, digest, us);
      edges := collector.relationships;
    }

    method ReplaceRelationships(digest: Digest) returns (ok: bool)
      requires PlainReferences(Snapshot())
      modifies this`relationships
      ensures ok <==> Producible(BaseTuples(old(Snapshot())), digest)
      ensures relationships == if ok then SortByID(BaseEdges(BaseTuples(old(Snapshot())), digest))
        else old(relationships)
    {
      var edges;
      edges, ok := CollectBaseEdges(digest);
      if ok {
        BaseEdgesCoherent(BaseTuples(Snapshot()), digest);
        relationships := SortRelationships(edges);
      }
    }

    method AssignReferences(digest: Digest) returns (ok: bool)
      modifies this`operations, this`resources, this`findings, this`unknowns
      ensures Snapshot() == Referenced(old(Snapshot()), CollisionFree(Nodes(old(Snapshot())), digest), digest)
      ensures ok <==> CollisionFree(Nodes(old(Snapshot())), digest) == |Nodes(old(Snapshot()))|
    {
      hide CollisionFree, Referenced, ListedAt, AssignAll;
      NodesAt(Snapshot());
      ok := AssignInOrder(digest, Nodes(Snapshot()), |operations| + |resources|);
    }

    /** `BuildEvidenceGraph`: binds, refers, collects and replaces the relationships, in that order. */
    method Build(digest: Digest) returns (ok: bool)
      modifies this`operations, this`resources, this`findings, this`unknowns, this`relationships
      ensures Outcome(Snapshot(), ok) == BuildGraph(old(Snapshot()), digest)
    {
      hide CollisionFree, BaseTuples, Nodes, Bound, Referenced;
      BindEvidenceInputs();
      ghost var bound := Snapshot();
      ok := AssignReferences(digest);
      if ok {
        ReferencedIsPlain(bound, digest);
        ok := ReplaceRelationships(digest);
      }
    }

    /** The tail of `AddComparison`: search for the ID, then append and sort. */
    method AppendEdge(edge: Relationship) returns (ok: bool)
      modifies this`relationships
      ensures ok == AddEdge(old(relationships), edge).1
      ensures Coherent(old(relationships)) ==> relationships == AddEdge(old(relationships), edge).0
      ensures relationships == old(relationships)
        || SortedPermutation(old(relationships) + [edge], relationships, IDLess)
    {
      ghost var same := (e: Relationship) => e.id == edge.id;
      var k := 0;
      while k < |relationships|
        invariant 0 <= k <= |relationships|
        invariant First(relationships, same) == First(relationships[k..], same)
      {
        if relationships[k].id == edge.id {
          return relationships[k] == edge;
        }
        assert relationships[k..][1..] == relationships[k + 1..];
        k := k + 1;
      }
      if |relationships| >= MAX_PRODUCED_RELATIONS {
        return false;
      }
      NewIDStaysCoherent(relationships, edge);
      relationships := SortRelationships(relationships + [edge]);
      ok := true;
    }

    /** `AddComparison`: on a coherent list it leaves exactly what `Compare` says, and on any list a sorted one. */
    method AddComparison(v: Comparison, digest: Digest) returns (ok: bool)
      modifies this`relationships
      ensures ok == Compare(old(Snapshot()), v, digest).ok
      ensures Coherent(old(relationships)) ==> Snapshot() == Compare(old(Snapshot()), v, digest).report
      ensures relationships == old(relationships) || (
        && ComparisonEdge(old(Snapshot()), v, digest).Some?
        && SortedPermutation(
             old(relationships) + [ComparisonEdge(old(Snapshot()), v, digest).value], relationships, IDLess))
    {
      hide ComparisonEdge, AddEdge;
      var edge := ComparisonEdge(Snapshot(), v, digest);
      if edge.None? {
        return false;
      }
      ok := AppendEdge(edge.value);
    }
  }

  lemma NewIDStaysCoherent(rs: seq<Relationship>, e: Relationship)
    requires forall r <- rs :: r.id != e.id
    ensures Coherent(rs) ==> Coherent(rs + [e])
  {
    assert forall i :: 0 <= i < |rs| ==> rs[i] in rs;
  }
}
