/** What acceptance by the main validator guarantees. */
module AcceptedReports {
  import opened Sorting
  import opened ReportModel
  import opened EvidenceGraph
  import opened RelationshipValidator
  import GraphFacts
  import GraphConsistency
  import opened EvidenceValidator
  import opened InventoryValidator
  import opened ReportValidator
  import Review

  // ---------- accepted nodes ----------

  lemma NodeOrigin(r: Report, n: Node)
    requires n in Nodes(r)
    ensures (exists o <- r.operations :: n == OperationAsNode(o)) || (exists o <- r.resources :: n == ResourceAsNode(o))
      || (exists f <- r.findings :: n == FindingAsNode(f)) || (exists u <- r.unknowns :: n == UnknownAsNode(u))
  {
    if n in Map(r.operations, OperationAsNode) {
      MapMembers(r.operations, r.operations, OperationAsNode);
    } else if n in Map(r.resources, ResourceAsNode) {
      MapMembers(r.resources, r.resources, ResourceAsNode);
    } else if n in Map(r.findings, FindingAsNode) {
      MapMembers(r.findings, r.findings, FindingAsNode);
    } else {
      assert n in Map(r.unknowns, UnknownAsNode);
      MapMembers(r.unknowns, r.unknowns, UnknownAsNode);
    }
  }

  lemma AcceptedNodesAreNamed(r: Report, c: Context)
    requires NodesValid(r, c)
    ensures forall n <- Nodes(r) :: Named(n, c.digest)
  {
    forall n | n in Nodes(r) ensures Named(n, c.digest) {
      NodeOrigin(r, n);
    }
  }

  lemma AcceptedIsWellNamed(r: Report, c: Context)
    requires NodesValid(r, c)
    ensures GraphFacts.WellNamed(r, c.digest)
  {
    AcceptedNodesAreNamed(r, c);
    var nodes := Nodes(r);
    forall i, j | 0 <= i < j < |nodes| ensures !nodes[i].SameIdentity(nodes[j]) {
      assert nodes[i] in nodes && nodes[j] in nodes;
      assert nodes[i].reference != nodes[j].reference;
    }
    forall i | 0 <= i < |nodes| ensures Named(nodes[i], c.digest) {
      assert nodes[i] in nodes;
    }
  }

  lemma DeclaredID(r: Report, id: string)
    requires id in OperationIDs(r)
    ensures GraphFacts.Declared(r.operations, id)
  {
    var o :| o in r.operations && o.id == id;
    var i :| 0 <= i < |r.operations| && r.operations[i] == o;
  }

  lemma AcceptedIsSupported(r: Report, c: Context)
    requires NodesValid(r, c)
    ensures GraphFacts.Supported(r)
  {
    forall i | 0 <= i < |r.resources| ensures GraphFacts.Declared(r.operations, r.resources[i].relatedOperation) {
      assert r.resources[i] in r.resources;
      DeclaredID(r, r.resources[i].relatedOperation);
    }
    forall i | 0 <= i < |r.findings| ensures GraphFacts.NoRepeats(r.findings[i].related) {
      assert r.findings[i] in r.findings;
    }
    forall i, k | 0 <= i < |r.findings| && 0 <= k < |r.findings[i].related|
      ensures GraphFacts.Declared(r.operations, r.findings[i].related[k])
    {
      assert r.findings[i] in r.findings && r.findings[i].related[k] in r.findings[i].related;
      DeclaredID(r, r.findings[i].related[k]);
    }
    forall i | 0 <= i < |r.unknowns| ensures GraphFacts.NoRepeats(r.unknowns[i].affected) {
      assert r.unknowns[i] in r.unknowns;
    }
    forall i, k | 0 <= i < |r.unknowns| && 0 <= k < |r.unknowns[i].affected|
      ensures GraphFacts.Declared(r.operations, r.unknowns[i].affected[k])
    {
      assert r.unknowns[i] in r.unknowns && r.unknowns[i].affected[k] in r.unknowns[i].affected;
      DeclaredID(r, r.unknowns[i].affected[k]);
    }
  }

  /**
   Every accepted report meets, in full, the premises of the graph theorems: well-named nodes, declared support,
   complete reference maps and an accepted list.
   */
  lemma AcceptedIsSound(r: Report, policies: seq<Policy>, env: Environment)
    requires ReportValid(r, policies, env)
    ensures GraphFacts.Grounded(r, env.digest)
    ensures GraphConsistency.Sound(r, env.digest, KindsOf(Nodes(r)), OriginsOf(Nodes(r)))
  {
    var c := ContextOf(r, env);
    AcceptedIsWellNamed(r, c);
    AcceptedIsSupported(r, c);
    Catalogues(Nodes(r));
  }

  // ---------- complete reports ----------

  predicate Supplies(policies: seq<Policy>) {
    exists p <- policies :: p.suppliesSubject
  }

  ghost predicate WhollyAnalyzed(r: Report) {
    forall f <- r.inventory ::
      f.kind == REGULAR_KIND && f.inspected && f.analysis == Analyzed && !f.Elf() && f.binary.None? && f.archive.None?
  }

  predicate LocallyMade(n: Node, scannerVersion: string) {
    && !n.provenance.External() && n.provenance.analyzer == DETERMINISTIC_ANALYZER
    && n.provenance.analyzerVersion == scannerVersion
  }

  ghost predicate WhollyLocal(r: Report) {
    && |r.inputs| == 1 && r.inputs[0].inputType == TargetInput
    && (forall n <- Nodes(r) :: LocallyMade(n, r.scannerVersion))
    && (forall e <- r.relationships :: !e.relation.Corroborates? && !e.relation.DisagreesWith?)
    && (forall f <- r.findings :: !Reserved(f))
  }

  lemma CompleteIsAnalyzed(r: Report, policies: seq<Policy>, env: Environment)
    requires ReportValid(r, policies, env) && r.status == Complete
    ensures WhollyAnalyzed(r)
  {
    Review.FullCoverageIff(r.inventory);
    forall f | f in r.inventory
      ensures f.kind == REGULAR_KIND && f.inspected && f.analysis == Analyzed && !f.Elf() && f.binary.None?
      ensures f.archive.None?
    {
      assert FileCheck(env.safePath, env.supported)(f);
      AnalyzedMeansPlainSource(f, env.safePath, env.supported);
    }
  }

  lemma CompleteHasNoExternalInput(r: Report, policies: seq<Policy>, env: Environment)
    requires ReportValid(r, policies, env) && r.status == Complete && !Supplies(policies)
    ensures forall input <- r.inputs :: input.inputType == TargetInput
  {
    forall input | input in r.inputs ensures input.inputType == OmarchyInput ==> input.subjectRootDigest == "" {
      assert InputValid(input, r.target.rootDigest, policies);
    }
    assert forall id :: !BindingExplained(r.unknowns, IndexInputs(r.inputs), id);
  }

  lemma OnlyTargetInputs(inputs: seq<EvidenceInput>, rootDigest: string, policies: seq<Policy>)
    requires InputsValid(inputs, rootDigest, policies) && forall input <- inputs :: input.inputType == TargetInput
    ensures |inputs| == 1
  {
    assert |inputs| > 1 ==> inputs[0].id != inputs[1].id;
    forall i | 0 <= i < |inputs| ensures inputs[i].id == TARGET_INPUT_ID {
      assert inputs[i] in inputs;
    }
  }

  /** Without an external input no record can be external: each has evidence, and its evidence needs the input. */
  lemma NodesAreLocal(r: Report, c: Context)
    requires NodesValid(r, c) && DistinctInputs(r.inputs) && c.inputs == IndexInputs(r.inputs)
    requires c.scannerVersion == r.scannerVersion
    requires r.unknowns == [] && forall input <- r.inputs :: input.inputType == TargetInput
    ensures forall n <- Nodes(r) :: LocallyMade(n, r.scannerVersion)
  {
    IndexedInputs(r.inputs);
    forall n | n in Nodes(r) ensures LocallyMade(n, r.scannerVersion) {
      NodeOrigin(r, n);
      if f :| f in r.findings && n == FindingAsNode(f) {
        FindingIsLocal(f, r, c);
      }
    }
  }

  lemma FindingIsLocal(f: Finding, r: Report, c: Context)
    requires f in r.findings && NodesValid(r, c) && c.inputs == IndexInputs(r.inputs)
    requires (forall input <- r.inputs :: input.inputType == TargetInput) && DistinctInputs(r.inputs)
    ensures !f.provenance.External()
  {
    IndexedInputs(r.inputs);
    assert f.evidence[0] in f.evidence;
    assert Anchored(f.evidence[0], f.provenance, c.files, c.inputs, c.safePath);
  }

  lemma OriginIsLocal(nodes: seq<Node>, reference: string)
    requires GraphFacts.DistinctReferences(nodes) && forall n <- nodes :: !n.provenance.External()
    ensures !OriginAt(OriginsOf(nodes), reference).External()
  {
    Catalogues(nodes);
    CatalogueKeys(nodes);
    if reference in OriginsOf(nodes) {
      assert reference in KindsOf(nodes);
      var i :| 0 <= i < |nodes| && nodes[i].reference == reference;
      assert nodes[i] in nodes;
    }
  }

  lemma LocalSource(r: Report, kind: NodeKind, source: string, finding: string)
    requires (forall n <- Nodes(r) :: !n.provenance.External())
    requires forall input <- r.inputs :: input.inputType == TargetInput
    ensures !CoverageDifference(r, kind, source, finding)
  {
    var os := Observations(r, kind);
    forall o | o in os ensures !o.provenance.External() {
      var i :| 0 <= i < |os| && os[i] == o;
      GraphFacts.ObservationIsNode(r, kind, i);
      assert Nodes(r)[GraphFacts.NodePosition(r, kind, i)] in Nodes(r);
    }
  }

  lemma LocalGraph(r: Report, env: Environment)
    requires GraphValid(r, env.digest) && GraphFacts.DistinctReferences(Nodes(r))
    requires (forall n <- Nodes(r) :: !n.provenance.External())
    requires forall input <- r.inputs :: input.inputType == TargetInput
    ensures forall e <- r.relationships :: !e.relation.Corroborates? && !e.relation.DisagreesWith?
    ensures forall f <- r.findings :: !Reserved(f)
  {
    var kinds, origins := KindsOf(Nodes(r)), OriginsOf(Nodes(r));
    forall e | e in r.relationships ensures !e.relation.Corroborates? && !e.relation.DisagreesWith? {
      GraphConsistency.AcceptedEdge(r, env.digest, kinds, origins, e);
      OriginIsLocal(Nodes(r), e.from);
      OriginIsLocal(Nodes(r), e.to);
      LocalSource(r, e.fromKind, e.from, e.to);
    }
    forall f | f in r.findings ensures !Reserved(f) {
      NoDisagreement(r.relationships, f.reference);
      assert f.reference in ReservedReferences(r) ==> Disagreements(r.relationships, f.reference) == 1;
    }
  }

  /**
   A report accepted as complete, under any policy table in which no format supplies a subject digest, has one
   evidence input, only analysed plain source files, only local records, and no trace of an external comparison.
   */
  lemma CompleteIsWhollyLocal(r: Report, policies: seq<Policy>, env: Environment)
    requires ReportValid(r, policies, env) && r.status == Complete && !Supplies(policies)
    ensures WhollyAnalyzed(r) && WhollyLocal(r)
  {
    CompleteIsAnalyzed(r, policies, env);
    CompleteHasNoExternalInput(r, policies, env);
    OnlyTargetInputs(r.inputs, r.target.rootDigest, policies);
    assert r.inputs[0] in r.inputs;
    LocalRecords(r, env);
  }

  lemma LocalRecords(r: Report, env: Environment)
    requires NodesValid(r, ContextOf(r, env)) && GraphValid(r, env.digest) && DistinctInputs(r.inputs)
    requires r.unknowns == []
    requires |r.inputs| == 1 && r.inputs[0].inputType == TargetInput
    ensures WhollyLocal(r)
  {
    NodesAreLocal(r, ContextOf(r, env));
    LocalGraph(r, env);
  }

  /** The production table is such a table. */
  lemma ProductionSuppliesNothing()
    ensures !Supplies(PRODUCTION_POLICIES)
  {
  }

  /** A derived summary over a bounded inventory is a valid one. */
  lemma DerivedReviewIsValid(r: Report)
    requires r.review == Some(Review.ReviewOf(r, Review.CoverageOf(r.inventory))) && |r.inventory| <= MAX_INVENTORY
    ensures ReviewValid(r)
  {
    Review.DerivedCoverageValidIff(r.inventory);
    Review.ReviewKeepsCoverage(r, Review.CoverageOf(r.inventory));
  }
}
