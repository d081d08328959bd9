/**
 Runtime reachability and scope annotation of internal/analyze/scope.go. Go ranges over maps in any order and
 may or may not visit entries added during the range; the result is proved to be one set all the same.
 */
module RuntimeScope {
  import opened Text
  import opened Sorting
  import opened ReportModel

  /** The path rules, left open: cleaning, last element, repository tooling, `.git` metadata and QML suffixes. */
  datatype Rules = Rules(clean: string -> string, base: string -> string, tooling: string -> bool,
    gitMetadata: string -> bool, qml: string -> bool)

  /** What the analysis looked at: inspected texts by path, the inventory, and the manifest's entry points. */
  datatype Sources = Sources(contents: map<string, string>, files: seq<File>, entryPoints: Option<set<string>>)

  // ---------- the reachable set ----------

  function Candidates(s: Sources, rules: Rules): set<string> {
    (set name <- s.contents.Keys | !rules.gitMetadata(rules.clean(name)) :: rules.clean(name))
    + (set f <- s.files | f.kind == REGULAR_KIND && !rules.gitMetadata(rules.clean(f.path)) :: rules.clean(f.path))
  }

  predicate Mentions(text: string, path: string, rules: Rules) {
    Contains(text, path) || Contains(text, rules.base(path))
  }

  /** The candidates that one text refers to. */
  function Marked(text: string, source: string, candidates: set<string>, rules: Rules): set<string> {
    set c <- candidates | c != source && !rules.tooling(c) && Mentions(text, c, rules)
  }

  function Entries(s: Sources, rules: Rules): set<string> {
    if s.entryPoints.None? then {} else set entry <- s.entryPoints.value :: rules.clean(entry)
  }

  predicate Root(name: string, rules: Rules) {
    rules.qml(name) && !rules.tooling(name)
  }

  /** Entry points, QML files outside tooling, and what those files mention. */
  ghost predicate Initial(s: Sources, rules: Rules, paths: set<string>) {
    && Entries(s, rules) <= paths
    && forall name <- s.contents.Keys | Root(name, rules) ::
      rules.clean(name) in paths && Marked(s.contents[name], name, Candidates(s, rules), rules) <= paths
  }

  /** An inspected member brings in everything it mentions. */
  ghost predicate Closed(s: Sources, rules: Rules, paths: set<string>) {
    forall r <- paths | r in s.contents :: Marked(s.contents[r], r, Candidates(s, rules), rules) <= paths
  }

  ghost predicate Below(s: Sources, rules: Rules, paths: set<string>) {
    forall t :: Initial(s, rules, t) && Closed(s, rules, t) ==> paths <= t
  }

  /** The least set that holds the roots and is closed under mentions. */
  ghost predicate Reachable(s: Sources, rules: Rules, paths: set<string>) {
    Initial(s, rules, paths) && Closed(s, rules, paths) && Below(s, rules, paths)
  }

  /** There is only one such set, so no iteration order can change the outcome. */
  lemma ReachableIsUnique(s: Sources, rules: Rules, a: set<string>, b: set<string>)
    requires Reachable(s, rules, a) && Reachable(s, rules, b)
    ensures a == b
  {
    assert a <= b && b <= a;
  }

  lemma CandidatesGrow(s: Sources, more: Sources, rules: Rules)
    requires more.contents == s.contents && forall f <- s.files :: f in more.files
    ensures Candidates(s, rules) <= Candidates(more, rules)
  {
    forall f | f in s.files && f.kind == REGULAR_KIND && !rules.gitMetadata(rules.clean(f.path))
      ensures rules.clean(f.path) in Candidates(more, rules)
    {
      assert f in more.files;
    }
  }

  /** Passing more inventory files never removes a path. */
  lemma MoreFilesReachMore(s: Sources, more: Sources, rules: Rules, a: set<string>, b: set<string>)
    requires more.contents == s.contents && more.entryPoints == s.entryPoints && forall f <- s.files :: f in more.files
    requires Reachable(s, rules, a) && Reachable(more, rules, b)
    ensures a <= b
  {
    CandidatesGrow(s, more, rules);
    forall name | name in s.contents.Keys && Root(name, rules)
      ensures rules.clean(name) in b && Marked(s.contents[name], name, Candidates(s, rules), rules) <= b
    {
      assert Marked(s.contents[name], name, Candidates(s, rules), rules)
        <= Marked(s.contents[name], name, Candidates(more, rules), rules);
    }
    forall r | r in b && r in s.contents ensures Marked(s.contents[r], r, Candidates(s, rules), rules) <= b {
      assert Marked(s.contents[r], r, Candidates(s, rules), rules)
        <= Marked(s.contents[r], r, Candidates(more, rules), rules);
    }
    assert Initial(s, rules, b) && Closed(s, rules, b);
  }

  // ---------- the loops ----------

  /** `markTextReferences`: ranging over a map in any order. */
  method MarkTextReferences(
    text: string, source: string, candidates: set<string>, references: set<string>, rules: Rules)
    returns (more: set<string>)
    ensures more == references + Marked(text, source, candidates, rules)
  {
    more := references;
    var pending := candidates;
    while pending != {}
      invariant pending <= candidates
      invariant more == references + Marked(text, source, candidates - pending, rules)
      decreases |pending|
    {
      var clean :| clean in pending;
      assert candidates - (pending - {clean}) == (candidates - pending) + {clean};
      if clean != source && !rules.tooling(clean) && (Contains(text, clean) || Contains(text, rules.base(clean))) {
        more := more + {clean};
      }
      pending := pending - {clean};
    }
    assert candidates - pending == candidates;
  }

  method CollectCandidates(s: Sources, rules: Rules) returns (candidates: set<string>)
    ensures candidates == Candidates(s, rules)
  {
    candidates := set name <- s.contents.Keys | !rules.gitMetadata(rules.clean(name)) :: rules.clean(name);
    ghost var inspected := candidates;
    for k := 0 to |s.files|
      invariant candidates == inspected + set f <- s.files[..k] | f.kind == REGULAR_KIND
        && !rules.gitMetadata(rules.clean(f.path)) :: rules.clean(f.path)
    {
      var clean := rules.clean(s.files[k].path);
      TakeMore(s.files, k);
      if s.files[k].kind == REGULAR_KIND && !rules.gitMetadata(clean) {
        candidates := candidates + {clean};
      }
    }
    assert s.files[..|s.files|] == s.files;
  }

  ghost predicate RootsTaken(s: Sources, rules: Rules, done: set<string>, references: set<string>) {
    forall name <- done | name in s.contents && Root(name, rules) ::
      rules.clean(name) in references && Marked(s.contents[name], name, Candidates(s, rules), rules) <= references
  }

  /** Entry points and QML roots, in any order. */
  method SeedReferences(s: Sources, rules: Rules, candidates: set<string>) returns (references: set<string>)
    requires candidates == Candidates(s, rules)
    ensures Initial(s, rules, references) && Below(s, rules, references)
  {
    references := Entries(s, rules);
    var pending := s.contents.Keys;
    while pending != {}
      invariant pending <= s.contents.Keys && Entries(s, rules) <= references
      invariant RootsTaken(s, rules, s.contents.Keys - pending, references)
      invariant Below(s, rules, references)
      decreases |pending|
    {
      var name :| name in pending;
      if Root(name, rules) {
        ghost var before := references;
        references := references + {rules.clean(name)};
        references := MarkTextReferences(s.contents[name], name, candidates, references, rules);
        forall t | Initial(s, rules, t) && Closed(s, rules, t) ensures references <= t {
          assert before <= t && rules.clean(name) in t && Marked(s.contents[name], name, candidates, rules) <= t;
        }
      }
      pending := pending - {name};
    }
  }

  ghost predicate Spread(s: Sources, rules: Rules, done: set<string>, references: set<string>) {
    forall r <- done | r in s.contents :: Marked(s.contents[r], r, Candidates(s, rules), rules) <= references
  }

  lemma Shrinks<T>(whole: set<T>, a: set<T>, b: set<T>)
    requires a < b <= whole
    ensures |whole - b| < |whole - a|
  {
    assert whole - b < whole - a;
    SubsetSmaller(whole - b, whole - a);
  }

  lemma SubsetSmaller<T>(a: set<T>, b: set<T>)
    requires a < b
    ensures |a| < |b|
  {
    assert |b - a| > 0 by {
      var x :| x in b && x !in a;
      assert x in b - a;
    }
    assert b == a + (b - a);
  }

  /** One member of the range: what it adds is reachable. */
  method Visit(s: Sources, rules: Rules, candidates: set<string>, references: set<string>, referenced: string)
    returns (more: set<string>)
    requires candidates == Candidates(s, rules) && referenced in references && Below(s, rules, references)
    ensures references <= more <= references + candidates && Below(s, rules, more)
    ensures referenced in s.contents ==> Marked(s.contents[referenced], referenced, candidates, rules) <= more
  {
    more := references;
    if referenced !in s.contents {
      return;
    }
    more := MarkTextReferences(s.contents[referenced], referenced, candidates, references, rules);
    forall t | Initial(s, rules, t) && Closed(s, rules, t) ensures more <= t {
      assert referenced in t;
    }
  }

  lemma SpreadMore(s: Sources, rules: Rules, references: set<string>, pending: set<string>, more: set<string>,
    referenced: string,
                   visited: set<string>, next: set<string>)
    requires Spread(s, rules, references - pending, more) && more <= next
    requires referenced in s.contents ==>
      Marked(s.contents[referenced], referenced, Candidates(s, rules), rules) <= next
    ensures Spread(s, rules, references - (pending - {referenced} + visited), next)
  {
    forall r | r in references - (pending - {referenced} + visited) && r in s.contents
      ensures Marked(s.contents[r], r, Candidates(s, rules), rules) <= next
    {
      if r != referenced {
        assert r in references - pending;
      }
    }
  }

  /** Either something was added, and less is left to add, or one entry fewer is left to visit. */
  lemma RangeShrinks(
    whole: set<string>, more: set<string>, next: set<string>, pending: set<string>, referenced: string,
    visited: set<string>)
    requires more <= next <= whole && visited <= next - more && referenced in pending && pending <= more
    ensures |whole - next| < |whole - more| || (next == more && |pending - {referenced} + visited| < |pending|)
  {
    if next == more {
      assert pending - {referenced} + visited == pending - {referenced};
      SubsetSmaller(pending - {referenced}, pending);
    } else {
      Shrinks(whole, more, next);
    }
  }

  lemma SpreadAll(s: Sources, rules: Rules, references: set<string>, more: set<string>)
    requires Spread(s, rules, references - {}, more)
    ensures more == references ==> Closed(s, rules, more)
  {
    assert references - {} == references;
  }

  /** One range over the references. Entries added meanwhile may or may not be visited. */
  method Pass(s: Sources, rules: Rules, candidates: set<string>, references: set<string>, ghost whole: set<string>)
    returns (more: set<string>)
    requires candidates == Candidates(s, rules) && Below(s, rules, references) && references <= whole
    requires candidates <= whole
    ensures references <= more <= whole && Below(s, rules, more)
    ensures more == references ==> Closed(s, rules, more)
  {
    more := references;
    var pending := references;
    assert references - pending == {};
    while pending != {}
      invariant references <= more <= whole && pending <= more && Below(s, rules, more)
      invariant Spread(s, rules, references - pending, more)
      decreases |whole - more|, |pending|
    {
      var referenced :| referenced in pending;
      var next := Visit(s, rules, candidates, more, referenced);
      var added := next - more;
      var visited :| visited <= added;
      SpreadMore(s, rules, references, pending, more, referenced, visited, next);
      RangeShrinks(whole, more, next, pending, referenced, visited);
      pending := pending - {referenced} + visited;
      more := next;
    }
    SpreadAll(s, rules, references, more);
  }

  /** `runtimeReferencedPaths`: for every order of iteration the result is the reachable set. */
  method RuntimeReferencedPaths(s: Sources, rules: Rules) returns (references: set<string>)
    ensures Reachable(s, rules, references)
  {
    var candidates := CollectCandidates(s, rules);
    references := SeedReferences(s, rules, candidates);
    ghost var whole := references + candidates;
    ghost var seeds := references;
    var changed := true;
    while changed
      invariant seeds <= references <= whole && Below(s, rules, references)
      invariant !changed ==> Closed(s, rules, references)
      decreases |whole - references|, changed
    {
      var before := references;
      references := Pass(s, rules, candidates, references, whole);
      changed := references != before;
      if changed {
        Shrinks(whole, before, references);
      }
    }
    InitialGrows(s, rules, seeds, references);
  }

  lemma InitialGrows(s: Sources, rules: Rules, a: set<string>, b: set<string>)
    requires Initial(s, rules, a) && a <= b
    ensures Initial(s, rules, b)
  {
  }

  // ---------- scopes ----------

  function ScopeForPath(name: string, references: set<string>, rules: Rules): (scope: Scope)
    ensures scope != UnsetScope
  {
    if rules.tooling(rules.clean(name)) then ToolingScope else if rules.clean(name) in references then RuntimeScope
      else UnknownScope
  }

  /** Every listed operation is known and has this scope. */
  predicate AllScoped(ids: seq<string>, scopes: map<string, Scope>, scope: Scope) {
    forall id <- ids :: id in scopes && scopes[id] == scope
  }

  function RelatedScope(ids: seq<string>, scopes: map<string, Scope>): Scope {
    if ids == [] || ids[0] !in scopes || !AllScoped(ids, scopes, scopes[ids[0]]) then UnknownScope else scopes[ids[0]]
  }

  /** `relatedScope`, with its early returns. */
  method SelectRelatedScope(ids: seq<string>, scopes: map<string, Scope>) returns (selected: Scope)
    requires forall id <- scopes :: scopes[id] != UnsetScope
    ensures selected == RelatedScope(ids, scopes)
  {
    selected := UnsetScope;
    for k := 0 to |ids|
      invariant k == 0 <==> selected == UnsetScope
      invariant forall i :: 0 <= i < k ==> ids[i] in scopes && scopes[ids[i]] == selected
    {
      if ids[k] !in scopes {
        assert ids[k] in ids;
        return UnknownScope;
      }
      if selected == UnsetScope {
        selected := scopes[ids[k]];
      } else if selected != scopes[ids[k]] {
        assert ids[k] in ids && ids[0] in ids;
        return UnknownScope;
      }
    }
    if selected == UnsetScope {
      return UnknownScope;
    }
  }

  /** A known scope is claimed exactly when every related operation has it; order and repeats are irrelevant. */
  lemma RelatedScopeIff(ids: seq<string>, scopes: map<string, Scope>, scope: Scope)
    requires scope != UnknownScope
    ensures RelatedScope(ids, scopes) == scope <==> ids != [] && AllScoped(ids, scopes, scope)
  {
    if ids != [] {
      assert ids[0] in ids;
    }
  }

  /** The part of an analysis result that annotation rewrites. */
  class AnalysisResult {
    var operations: seq<Operation>
    var resources: seq<Resource>
    var findings: seq<Finding>
    var unknowns: seq<Unknown>
    var limitations: seq<Limitation>

    constructor (operations: seq<Operation>, resources: seq<Resource>, findings: seq<Finding>, unknowns: seq<Unknown>,
      limitations: seq<Limitation>)
      ensures this.operations == operations && this.resources == resources && this.findings == findings
      ensures this.unknowns == unknowns && this.limitations == limitations
    {
      this.operations, this.resources, this.findings, this.unknowns, this.limitations :=
        operations, resources, findings, unknowns, limitations;
    }

    method AnnotateOperations(references: set<string>, rules: Rules) returns (scopes: map<string, Scope>)
      modifies this`operations
      ensures operations == ScopeOperations(old(operations), references, rules)
      ensures scopes == ScopesOf(operations)
    {
      scopes := map[];
      var k := 0;
      while k < |operations|
        invariant k <= |operations| == |old(operations)|
        invariant forall i :: 0 <= i < k ==> operations[i] == ScopeOperation(old(operations)[i], references, rules)
        invariant forall i :: k <= i < |operations| ==> operations[i] == old(operations)[i]
        invariant scopes == ScopesOf(operations[..k])
      {
        ghost var before := operations[..k];
        var scope := ScopeForPath(operations[k].evidence.path, references, rules);
        operations := operations[k := operations[k].(scope := scope)];
        assert operations[..k] == before;
        assert operations[..k + 1][..k] == operations[..k];
        scopes := scopes[operations[k].id := scope];
        k := k + 1;
      }
      assert operations[..k] == operations;
    }

    method AnnotateResources(scopes: map<string, Scope>)
      modifies this`resources
      ensures resources == ScopeResources(old(resources), scopes)
    {
      for k := 0 to |resources|
        invariant |resources| == |old(resources)|
        invariant forall i :: 0 <= i < k ==> resources[i] == ScopeResource(old(resources)[i], scopes)
        invariant forall i :: k <= i < |resources| ==> resources[i] == old(resources)[i]
      {
        var id := resources[k].relatedOperation;
        resources := resources[k := resources[k].(scope := if id in scopes then scopes[id] else UnknownScope)];
      }
    }

    method AnnotateFindings(scopes: map<string, Scope>, references: set<string>, rules: Rules)
      requires forall id <- scopes :: scopes[id] != UnsetScope
      modifies this`findings
      ensures findings == ScopeFindings(old(findings), scopes, references, rules)
    {
      for k := 0 to |findings|
        invariant |findings| == |old(findings)|
        invariant forall i :: 0 <= i < k ==> findings[i] == ScopeFinding(old(findings)[i], scopes, references, rules)
        invariant forall i :: k <= i < |findings| ==> findings[i] == old(findings)[i]
      {
        var scope := SelectScope(findings[k].related, findings[k].evidence, scopes, references, rules);
        findings := findings[k := findings[k].(scope := scope)];
      }
    }

    method AnnotateUnknowns(scopes: map<string, Scope>, references: set<string>, rules: Rules)
      requires forall id <- scopes :: scopes[id] != UnsetScope
      modifies this`unknowns
      ensures unknowns == ScopeUnknowns(old(unknowns), scopes, references, rules)
    {
      for k := 0 to |unknowns|
        invariant |unknowns| == |old(unknowns)|
        invariant forall i :: 0 <= i < k ==> unknowns[i] == ScopeUnknown(old(unknowns)[i], scopes, references, rules)
        invariant forall i :: k <= i < |unknowns| ==> unknowns[i] == old(unknowns)[i]
      {
        var scope := SelectScope(unknowns[k].affected, unknowns[k].evidence, scopes, references, rules);
        unknowns := unknowns[k := unknowns[k].(scope := scope)];
      }
    }

    method AnnotateLimitations(references: set<string>, rules: Rules)
      modifies this`limitations
      ensures limitations == ScopeLimitations(old(limitations), references, rules)
    {
      for k := 0 to |limitations|
        invariant |limitations| == |old(limitations)|
        invariant forall i :: 0 <= i < k ==> limitations[i] == ScopeLimitation(old(limitations)[i], references, rules)
        invariant forall i :: k <= i < |limitations| ==> limitations[i] == old(limitations)[i]
      {
        if limitations[k].scope == UnsetScope && limitations[k].path != "" {
          var scope := ScopeForPath(limitations[k].path, references, rules);
          limitations := limitations[k := limitations[k].(scope := scope)];
        }
      }
    }

    /** `annotateScopes`. */
    method AnnotateScopes(s: Sources, rules: Rules) returns (ghost references: set<string>)
      modifies this
      ensures Reachable(s, rules, references)
      ensures operations == ScopeOperations(old(operations), references, rules)
      ensures resources == ScopeResources(old(resources), ScopesOf(operations))
      ensures findings == ScopeFindings(old(findings), ScopesOf(operations), references, rules)
      ensures unknowns == ScopeUnknowns(old(unknowns), ScopesOf(operations), references, rules)
      ensures limitations == ScopeLimitations(old(limitations), references, rules)
    {
      var found := RuntimeReferencedPaths(s, rules);
      references := found;
      var scopes := AnnotateOperations(found, rules);
      ScopesAreSet(operations);
      AnnotateResources(scopes);
      AnnotateFindings(scopes, found, rules);
      AnnotateUnknowns(scopes, found, rules);
      AnnotateLimitations(found, rules);
    }
  }

  function ScopeOperations(os: seq<Operation>, references: set<string>, rules: Rules): seq<Operation> {
    Map(os, (o: Operation) => ScopeOperation(o, references, rules))
  }

  function ScopeResources(os: seq<Resource>, scopes: map<string, Scope>): seq<Resource> {
    Map(os, (o: Resource) => ScopeResource(o, scopes))
  }

  function ScopeFindings(
    fs: seq<Finding>, scopes: map<string, Scope>, references: set<string>, rules: Rules): seq<Finding>
  {
    Map(fs, (f: Finding) => ScopeFinding(f, scopes, references, rules))
  }

  function ScopeUnknowns(
    us: seq<Unknown>, scopes: map<string, Scope>, references: set<string>, rules: Rules): seq<Unknown>
  {
    Map(us, (u: Unknown) => ScopeUnknown(u, scopes, references, rules))
  }

  function ScopeLimitations(ls: seq<Limitation>, references: set<string>, rules: Rules): seq<Limitation> {
    Map(ls, (l: Limitation) => ScopeLimitation(l, references, rules))
  }

  function ScopeOperation(o: Operation, references: set<string>, rules: Rules): Operation {
    o.(scope := ScopeForPath(o.evidence.path, references, rules))
  }

  /** The map from operation IDs to scopes; a later operation with the same ID wins. */
  function ScopesOf(os: seq<Operation>): map<string, Scope> {
    if os == [] then map[] else ScopesOf(os[..|os| - 1])[os[|os| - 1].id := os[|os| - 1].scope]
  }

  lemma {:induction false} ScopesAreSet(os: seq<Operation>)
    requires forall o <- os :: o.scope != UnsetScope
    ensures forall id <- ScopesOf(os) :: ScopesOf(os)[id] != UnsetScope
  {
    if os != [] {
      ScopesAreSet(os[..|os| - 1]);
    }
  }

  function ScopeResource(o: Resource, scopes: map<string, Scope>): Resource {
    o.(scope := if o.relatedOperation in scopes then scopes[o.relatedOperation] else UnknownScope)
  }

  /** By related operations if there are any, else by the first evidence. */
  function ScopeBy(
    ids: seq<string>, evidence: seq<Evidence>, scopes: map<string, Scope>, references: set<string>, rules: Rules): Scope
  {
    if ids != [] then RelatedScope(ids, scopes)
    else if evidence != [] then ScopeForPath(evidence[0].path, references, rules)
    else UnknownScope
  }

  method SelectScope(
    ids: seq<string>, evidence: seq<Evidence>, scopes: map<string, Scope>, references: set<string>, rules: Rules)
    returns (scope: Scope)
    requires forall id <- scopes :: scopes[id] != UnsetScope
    ensures scope == ScopeBy(ids, evidence, scopes, references, rules)
  {
    if |ids| > 0 {
      scope := SelectRelatedScope(ids, scopes);
    } else if |evidence| > 0 {
      scope := ScopeForPath(evidence[0].path, references, rules);
    } else {
      scope := UnknownScope;
    }
  }

  function ScopeFinding(f: Finding, scopes: map<string, Scope>, references: set<string>, rules: Rules): Finding {
    f.(scope := ScopeBy(f.related, f.evidence, scopes, references, rules))
  }

  function ScopeUnknown(u: Unknown, scopes: map<string, Scope>, references: set<string>, rules: Rules): Unknown {
    u.(scope := ScopeBy(u.affected, u.evidence, scopes, references, rules))
  }

  function ScopeLimitation(l: Limitation, references: set<string>, rules: Rules): Limitation {
    if l.scope == UnsetScope && l.path != "" then l.(scope := ScopeForPath(l.path, references, rules)) else l
  }

  lemma {:induction false} ScopesLookUp(os: seq<Operation>, o: Operation)
    requires o in os && forall p <- os, q <- os :: p.id == q.id ==> p == q
    ensures o.id in ScopesOf(os) && ScopesOf(os)[o.id] == o.scope
  {
    var n := |os| - 1;
    if os[n].id == o.id {
      assert os[n] in os;
    } else {
      ScopesLookUp(os[..n], o);
    }
  }

  /** A resource always ends up in the scope of the operation it derives from. */
  lemma ResourceFollowsItsOperation(os: seq<Operation>, o: Operation, resource: Resource)
    requires o in os && (forall p <- os, q <- os :: p.id == q.id ==> p == q) && resource.relatedOperation == o.id
    ensures ScopeResource(resource, ScopesOf(os)).scope == o.scope
  {
    ScopesLookUp(os, o);
  }

  /** A finding with related operations is called runtime behaviour exactly when all of them are. */
  lemma FindingIsRuntimeIff(os: seq<Operation>, f: Finding, references: set<string>, rules: Rules)
    requires f.related != [] && forall p <- os, q <- os :: p.id == q.id ==> p == q
    requires forall id <- f.related :: exists o <- os :: o.id == id
    ensures ScopeFinding(f, ScopesOf(os), references, rules).scope == RuntimeScope <==>
      forall o <- os :: o.id in f.related ==> o.scope == RuntimeScope
  {
    var scopes := ScopesOf(os);
    RelatedScopeIff(f.related, scopes, RuntimeScope);
    forall o | o in os ensures o.id in scopes && scopes[o.id] == o.scope {
      ScopesLookUp(os, o);
    }
  }
}
