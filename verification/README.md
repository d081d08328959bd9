# Plug and Prejudice: verification of the report layer and the inventory walker

This project models the parts of Plug and Prejudice on which its trust rests: the evidence graph and the
validator that re-derives it, the main report validator, the canonical form, the structural JSON gate, the
two-pass inventory walker, the inventory digest, runtime reachability, the lexical QML scanner and the timed
teardown of a resource scope. Code that updates state is modelled by classes and by methods with loops, each
proved to leave exactly what a specification function says; the theorems are about those functions.

How the model is laid out:

- `Text`, `Integers`, `Sorting`, `Permutations`: Go strings (one character for each byte, byte-wise order),
  wrapping 64-bit arithmetic, and `sort.Slice` as any sorted permutation, with the condition under which that is
  one sequence.
- `ReportModel`: the report as values. A Go slice whose nil the validator tells from empty is a `Slice`.
- `Encodings`, `InventoryDigest`: the length-prefixed encodings.
- `EvidenceGraph`, `GraphBuilder`: public references, base edges and comparisons; `LiveReport` performs them in place.
- `RelationshipValidator`, `EvidenceValidator`, `InventoryValidator`, `ReportValidator`: what is accepted, and the
  loops over maps and counters that decide it. `HostileText` holds the check of every serialized string.
- `GraphFacts`, `BaseEdgeTheorems`, `BuildTheorems`, `ComparisonTheorems`, `RunTheorems`, `GraphConsistency`,
  `AcceptedReports`: theorems about every build, every run of comparisons and every accepted report.
- `Review`, `Comparators`, `Canonical`, `CanonicalEncoding`, `GraphUnderOrder`, `CanonicalAcceptance`,
  `CanonicalVerdict`, `CanonicalRefusal`: the derived summary and the canonical form.
- `JsonGate`, `SurrogateScan`: the gate in front of decoding.
- `Inventory`, `Walker` (module `WalkerClass`), `Reach`, `SecondPassTheorems`, `WalkedRecords`, `SettledTargets`,
  `InventoryBounds`, `TargetScan`, `ScannedReports`: the walker, the whole scan, and its root in a report.
  A target is a tree of filesystem readings, so it may change while it is walked; a snapshot is the special case in
  which all readings of an entry agree.
- `RuntimeScope`, `Qml`, `QmlRestarts`, `ResourceScope`: reachability and scopes, QML intervals, deadlines.

SHA-256 is an arbitrary function throughout, so every statement also holds for digests that collide. Go map
iteration is an arbitrary choice of the next key. File names, path cleaning, Unicode classes and UTF-8 validity are
parameters where the code takes them from a library.

What the proofs say about the code that its comments do not:

- A run of the builder and any comparisons is accepted exactly when the evidence boundary is respected and each
  reserved finding has exactly one disagreement. The builder itself accepts corroborations and duplicates that the
  validator refuses: it does not look at evidence sources, and it accepts a duplicate of a node with itself.
- The second pass reproduces the first up to one gap. The walker records a directory's mode and size when it lists
  it and compares only its identity when it pins it, so a directory whose mode or size changes in between passes with
  a stale record. A listing is reproduced if and only if its node is no directory, or a directory that held its mode
  and size from listing to pinning. Path, kind, link target, overflow decisions and depth cut-offs always agree. This
  is about walks that complete: the second pass opens no files, and does not see that one has become unreadable.
- An unchanged target, whose files hold as many bytes as their sizes say, is scanned if and only if its own listing
  can be read and nothing is wrong at any entry the walk comes to: metadata that cannot be read, an inspected file or
  a directory that cannot be opened, a directory within the budgets that cannot be listed, a link that cannot be
  read, a path, mode or link target that cannot be encoded. One such entry is enough, and each cause has a witness.
  An unreadable link is noted as an error by the first pass and refused by the second all the same.
- The file limit bounds appended entries and not pending siblings. The exact maximum is the sum over the levels of
  what is left of the limit, and for every choice of limits there is a snapshot of which a scan retains that many.
- Canonicalisation turns an empty nested list into nil, which the validator refuses. It also changes which eight
  reasons the derived summary quotes, so a title of more than 4,096 encoded bytes that was left out can come
  forward. For an accepted report these are the only two ways in which reordering fails, and each has a report that
  fails: one about an empty target whose manifest has an empty list of kinds, and one with nine scan errors of which
  the last has a long code.
- In a scan that starts in code, the QML tokenizer leaves code if and only if the byte it shows is the last one of a
  text that ends in a block comment never closed: such a comment is left one byte early, and from `/*x` the
  tokenizer reads the token `x`.
- The scan for command expressions starts again where each value ends and takes that place for code. The scans that
  find the expressions of a block all start in code of the document if and only if no unbracketed value but the last
  leaves a string or comment open at the end of its line. Otherwise a string can be read as code: in
  `{command:"a;command:[b]"}` the second expression is `[b]`.

## Model

| member | source | states |
|---|---|---|
| Sorting.SortSlice | internal/report/encode.go:69-82 | some sorted permutation of the input under any strict weak order |
| Sorting.SortedPermutationIsUnique | internal/report/encode.go:69-82 | where ties are equal records, every sort gives the same sequence |
| EvidenceGraph.IdentityInjective | internal/report/evidence_graph.go:344-347 | the preimage of a public reference determines kind and ID |
| EvidenceGraph.TupleTextInjective | internal/report/evidence_graph.go:353-356 | the preimage of an edge ID determines the typed tuple when its endpoints hold no NUL |
| EvidenceGraph.CollisionFreeIsLeast | internal/report/evidence_graph.go:33-82 | reference assignment stops at the first node whose reference is taken by another identity, and only there |
| GraphBuilder.IdentityTable.Assign | internal/report/evidence_graph.go:33-82 | one assignment step fails exactly on a collision and otherwise extends the identity map by this node |
| GraphBuilder.LiveReport.BindEvidenceInputs | internal/report/evidence_graph.go:134-172 | unbound evidence is bound to the target input or to the least external input ID, and nothing else changes |
| GraphBuilder.LiveReport.Build | internal/report/evidence_graph.go:33-132 | in place, exactly the report and verdict of the build function, references assigned before any failure included |
| GraphBuilder.LiveReport.AddComparison | internal/report/evidence_graph.go:178-258 | in place, exactly the report and verdict of one comparison request |
| BaseEdgeTheorems.BaseTuplesDistinct | internal/report/evidence_graph.go:83-131 | a grounded report declares no base tuple twice |
| BaseEdgeTheorems.BaseEdgesExact | internal/report/validate.go:742-845 | without comparisons and reserved findings a list is accepted iff it is the declared tuples, each once under its derived ID, for every digest |
| BuildTheorems.BuildGrounds | internal/report/evidence_graph.go:33-132 | a successful build leaves distinct derived references, declared support and the sorted base edges |
| BuildTheorems.BuilderListIsExact | internal/report/validate.go:742-845 | the accepted base lists of a built report are the permutations of what the builder emitted, comparison fields aside |
| BuildTheorems.CollisionRefusesEveryList | internal/report/validate.go:769-785 | when two declared tuples share an edge ID no list is accepted |
| ComparisonTheorems.RepeatIsIdentity | internal/report/evidence_graph.go:330-338 | repeating a successful comparison succeeds and changes nothing |
| ComparisonTheorems.SwapIsIdentity | internal/report/evidence_graph.go:178-258 | swapping the endpoints of a corroboration or duplicate gives the same report and verdict |
| ComparisonTheorems.CallsCommute | internal/report/evidence_graph.go:178-258 | two comparisons that succeed in one order succeed in the other and leave the same report |
| ComparisonTheorems.CollisionFailsClosed | internal/report/evidence_graph.go:242-258 | a request whose edge ID is taken changes nothing and succeeds only for the identical edge |
| RunTheorems.RunKeeps | internal/report/evidence_graph.go:178-258 | every reachable list keeps distinct IDs, ID order, the base edges and the size limit, and gains requested edges only |
| RunTheorems.RequestedValidIff | internal/report/validate.go:854-887 | an edge the builder would add is valid iff it respects the evidence boundary |
| RunTheorems.OnePairOneTuple | internal/report/validate.go:829-834 | two valid comparisons over one pair of endpoints are the same typed edge |
| RunTheorems.RunAcceptedExactly | internal/report/validate.go:734-852 | the result of a build and any comparisons is accepted iff corroborations cross the boundary between analyzers, duplicates join distinct nodes of one source and analyzer, and each reserved finding has one disagreement |
| RunTheorems.SelfDuplicateGrantedAndRefused | internal/report/evidence_graph.go:228-232 | the builder grants every operation and resource a duplicate of itself, and the validator refuses that edge |
| RelationshipValidator.ValidateRelationships | internal/report/validate.go:734-852 | the scan over maps and counters accepts exactly the lists that the order-free specification accepts |
| RelationshipValidator.ScanDecidesList | internal/report/validate.go:769-840 | scanning with early exits decides the declarative conditions on the whole list |
| GraphConsistency.CorroboratedIsNotMissing | internal/report/validate.go:932-1001 | no observation is both corroborated and the source of a coverage disagreement |
| GraphConsistency.MissingIsOneSided | internal/report/validate.go:932-1001 | all observations of a disagreement source's subject lie on one evidence side |
| GraphConsistency.CorroboratedIsNotDuplicated | internal/report/validate.go:854-887 | no pair is both corroborated and duplicated, in either direction |
| EvidenceValidator.ValidateEvidenceInputs | internal/report/validate.go:1045-1109 | the loop accepts exactly the bounded, distinct, valid declarations with one that binds the target, and returns them by ID |
| EvidenceValidator.ExternalEvidenceNeedsInput | internal/report/validate.go:1111-1136 | anchored evidence of an external record names a declared external input |
| InventoryValidator.SumEntries | internal/report/validate.go:179-189 | in wrapping 64-bit arithmetic the entry loop accepts exactly named entries whose sizes sum to the declared total |
| InventoryValidator.CheckFile | internal/report/validate.go:108-200 | one record is accepted iff identity, inspection, disposition, archive and binary metadata agree |
| InventoryValidator.AddSize | internal/report/validate.go:201-214 | subtracting before adding never wraps and refuses exactly a size that passes its declared total |
| InventoryValidator.ValidateInventory | internal/report/validate.go:106-218 | the inventory loop accepts exactly valid records with distinct paths and exact source and binary totals |
| ReportValidator.AdmitNodes | internal/report/validate.go:227-333 | the record loops accept exactly valid records with distinct references, and file every node's kind and provenance |
| ReportValidator.CheckExplained | internal/report/validate.go:367-429 | the sweep accepts iff every ELF has a native unknown and every unbound external input exactly one binding unknown |
| ReportValidator.Validate | internal/report/validate.go:50-480 | the main validator decides the order-free description of an acceptable report |
| AcceptedReports.AcceptedIsSound | internal/report/validate.go:227-432 | every accepted report meets the premises of the graph theorems in full |
| AcceptedReports.CompleteIsAnalyzed | internal/report/validate.go:459-469 | an accepted complete report holds analysed plain source files only |
| AcceptedReports.CompleteIsWhollyLocal | internal/report/validate.go:369-429 | when no policy supplies a subject digest, an accepted complete report has one input, local records only, and no corroboration, disagreement or reserved finding |
| Review.CoverageValidIff | internal/report/review.go:223-254 | a hostile coverage summary is valid iff its four counts determine it; no wrapped sum passes |
| Review.CoverageFromInventory | internal/report/review.go:206-221 | the counting loop gives the coverage of the dispositions |
| Review.DerivedCoverageValidIff | internal/report/review.go:206-254 | derived coverage is valid iff the inventory is within its limit |
| Review.FullCoverageIff | internal/report/review.go:256-279 | coverage without exclusions is complete or inapplicable iff every file was analysed |
| Review.SummarizeImpact | internal/report/review.go:40-60 | the running maximum with resets gives the first eight findings at the greatest severity |
| Review.ImpactIsTheMaximum | internal/report/review.go:40-60 | the impact level bounds every severity and its reasons are findings at that level |
| Review.ConfidenceForImpact | internal/report/review.go:109-122 | the early-returning loop gives the weakest confidence at a severity |
| Review.ImpactConfidenceIsTheMinimum | internal/report/review.go:65-68 | the reported confidence is the minimum over all findings at the impact level |
| Review.ComputeUnknownLevel | internal/report/review.go:139-166 | the loops with early returns give a join that depends on the members only |
| Review.AppendAll | internal/report/review.go:177-187 | appending under a cap gives the first eight of the de-duplicated candidates |
| Review.UnrepeatedCovers | internal/report/review.go:177-187 | de-duplication drops repeats and nothing else |
| Review.MainReasonsNeverRepeat | internal/report/review.go:87-95 | main reasons repeat a reference iff the impact reasons do |
| Review.ReviewNeverRepeatsAReference | internal/report/review.go:27-97 | with distinct finding references no main reason repeats one |
| Review.DeriveReviewSummary | internal/report/review.go:27-97 | the loops compute the batch specification of the whole summary |
| Comparators.EvidenceOrderIsTotal | internal/report/encode.go:179-196 | the comparator is a total order, zero on equal evidence only |
| Comparators.LimitationOrderIsTotal | internal/report/encode.go:201-212 | the comparator is a total order, zero on equal limitations only |
| Comparators.ScanErrorOrderIsTotal | internal/report/encode.go:214-222 | the comparator is a total order, zero on equal errors only |
| Canonical.ValidIsUntied | internal/report/encode.go:69-82 | an accepted report leaves no sort a tie between different records |
| Canonical.OrderIndependence | internal/report/encode.go:53-136 | reports equal up to the order of unordered collections at any level have one canonical form, summary included, once one candidate is accepted |
| CanonicalEncoding.CanonicalReport | internal/report/encode.go:53-136 | returns an accepted canonical form, or nothing exactly when no canonical form is accepted |
| CanonicalEncoding.CanonicalFormKeepsContent | internal/report/encode.go:53-136 | a canonical form holds the same content |
| CanonicalEncoding.CanonicalFormIsIdempotent | internal/report/encode.go:53-136 | canonicalising twice is canonicalising once |
| CanonicalEncoding.SameFormIffSameContent | internal/report/encode.go:28-40 | two accepted canonical forms are equal iff the reports have the same content |
| GraphUnderOrder.GraphValidUnderOrder | internal/report/validate.go:734-1001 | acceptance of a graph does not depend on the order of records, inputs or relationships |
| CanonicalVerdict.CanonicalFormAcceptedIff | internal/report/encode.go:83-142 | an accepted report has an accepted canonical form iff no manifest lacks kinds, no archive lacks entries, no binary has an empty list, and every reason title quoted in canonical order can be serialized; root digest, texts and summary are checked anew |
| CanonicalVerdict.DerivedFitsIff | internal/report/validate.go:482-507 | of all strings of a derived summary only the titles of its unknown reasons can be refused when the records are not |
| CanonicalRefusal.NoKindsRefused | internal/report/encode.go:54-58 | for every digest and policy table, an accepted report with an empty list of manifest kinds whose canonical form is refused |
| CanonicalRefusal.LateLongCodeRefused | internal/report/review.go:68-70 | for every digest and policy table, an accepted report without nested lists whose ninth error code is quoted once errors are sorted, and whose canonical form is refused |
| JsonGate.Decoder.Consume | internal/report/json_structure.go:40-120 | the recursive consumer accepts and leaves what the reading function does, for every token stream |
| JsonGate.ReadsBack | internal/report/json_structure.go:40-120 | on the tokens of a tree it takes exactly that tree, or refuses it iff the tree is not admitted |
| JsonGate.OnlyTrees | internal/report/json_structure.go:40-120 | whatever it takes from any token stream is the encoding of an admitted tree |
| JsonGate.ValidateStructure | internal/report/json_structure.go:28-37 | one value and no trailer iff the stream encodes an admitted tree |
| JsonGate.EncodingIsPrefixFree | internal/report/json_structure.go:28-120 | a token stream starts with the encoding of at most one tree, admitted or not |
| JsonGate.EncodeInjective | internal/report/json_structure.go:28-120 | a token stream encodes at most one tree |
| JsonGate.UntypedGate | internal/report/json_structure.go:40-120 | untyped, a tree is admitted iff no object at any level repeats a name and nesting is at most 64 |
| JsonGate.TypesOnlyRefuse | internal/report/json_structure.go:59-107 | whatever a type admits is admitted untyped |
| JsonGate.StructMembersExact | internal/report/json_structure.go:79-95 | an admitted object of a struct type uses exact field names only |
| SurrogateScan.ParseUnicodeEscape | internal/report/json_structure.go:183-192 | reads exactly four hexadecimal digits within bounds |
| SurrogateScan.ValidateSurrogateEscapes | internal/report/json_structure.go:140-181 | accepts iff every escape in a string literal has four digits and surrogates are paired and adjacent |
| Encodings.BuildResourceSubject | internal/report/semantic_subject.go:11-21 | the appending loop builds the length-prefixed subject |
| Encodings.ResourceSubjectInjective | internal/report/semantic_subject.go:11-21 | two subjects are equal iff kind, access and value are |
| InventoryDigest.InventoryStream | internal/report/inventory_digest.go:20-47 | the loop writes the records in path order, or refuses a negative size, invalid UTF-8 or NUL |
| InventoryDigest.InventoryRootDigest | internal/report/inventory_digest.go:20-47 | with unique paths, for any digest, the lowercase hexadecimal digest of the one stream that the records have, or nothing |
| InventoryDigest.RootStreamExact | internal/report/inventory_digest.go:20-58 | two inventories with unique paths feed the hash the same bytes iff their seven covered fields agree as sets of records |
| InventoryDigest.RootDigestIgnoresOrder | internal/report/inventory_digest.go:20-47 | the root digest, refusals included, is the same for every order of the records |
| InventoryDigest.RootDigestBinds | internal/report/inventory_digest.go:20-47 | two roots are equal iff the covered records are, unless the two streams themselves collide |
| WalkerClass.ReadBounded | internal/inventory/inventory.go:209-232 | batches of at most 128 give the listing, report that it exceeds the limit, or fail when reading breaks off before that |
| WalkerClass.Walker.Walk | internal/inventory/inventory.go:109-207 | in place, exactly the state or refusal of the walk function |
| WalkerClass.Walker.PinAndInspect | internal/inventory/inventory.go:318-389 | in place, exactly the budgets, counters and refusals of inspecting a regular file, one that cannot be opened included |
| WalkerClass.Walker.VerifyTree | internal/inventory/inventory.go:239-303 | decides the second-pass predicate |
| Reach.FirstPassRetains | internal/inventory/inventory.go:109-207 | a completed walk holds one record for each entry that tree and limits let it come to, in order |
| TargetScan.Scan | internal/inventory/inventory.go:73-107 | succeeds iff both passes do and every record encodes, and returns the walked records sorted by path with their root digest |
| TargetScan.WalkedPathsUnique | internal/inventory/inventory.go:133-144 | the records of a completed walk have distinct paths |
| TargetScan.UnchangedTargetScannedIff | internal/inventory/inventory.go:73-107 | an unchanged target is scanned iff it can be listed and every entry the walk comes to can be stat, opened, listed, read as a link and encoded |
| TargetScan.UndecodableNameRefused | internal/inventory/inventory.go:102-105 | a name that is no UTF-8 fails the scan of a snapshot that passes both passes |
| TargetScan.UndecodableTargetRefused | internal/report/inventory_digest.go:28-36 | and so does a link target that is no UTF-8 |
| ScannedReports.ScannedRootMatches | internal/report/validate.go:219-225 | a report that keeps the covered fields of the scanned records in any order passes the root check with the scanned root and with no other |
| WalkerClass.PathTextInjective | internal/inventory/inventory.go:136-139 | joined paths of clean names determine their components |
| InventoryBounds.ScanIsBounded | internal/inventory/inventory.go:110-126 | retained entries are at most the sum over the levels of what is left of the file limit |
| InventoryBounds.BoundIsAttained | internal/inventory/inventory.go:110-126 | for all limits some snapshot, with names as long as the digits of the file limit, passes both passes and retains exactly that sum, which passes the file limit itself once depth allows |
| SecondPassTheorems.SecondPassIsSound | internal/inventory/inventory.go:239-303 | a snapshot that the second pass accepts is walked to the end iff the files it comes to can be opened, and then gives the same observations, entries and cut-offs |
| WalkedRecords.FirstPassRecords | internal/inventory/inventory.go:133-207 | every retained record is what listing the node at its path gave, and the last observation is that listing, or for a directory its state when pinned |
| WalkedRecords.ListingsAgreeIff | internal/inventory/inventory.go:157-183 | a completed walk from scratch repeats a listing iff its node is no directory or held mode and size from listing to pinning |
| WalkedRecords.AllListingsAgreeIff | internal/inventory/inventory.go:157-183 | it repeats the whole inventory iff every recorded directory held, when it completes |
| WalkedRecords.StaleDirectoryRecord | internal/inventory/inventory.go:157-183 | a directory whose mode changes before it is pinned passes both passes, and a walk from scratch lists it differently |
| SettledTargets.UnreadIffVisited | internal/inventory/inventory.go:146-160 | a completed walk of any target notes a link as unread iff it comes to a link without a readable target |
| SettledTargets.UnchangedTargetAcceptedIff | internal/inventory/inventory.go:109-303 | an unchanged target passes both passes iff it can be listed and every entry the walk comes to can be stat, opened, listed and read as a link |
| SettledTargets.UnreadableLinkRefused | internal/inventory/inventory.go:284-288 | a snapshot with one unreadable link is refused |
| SettledTargets.UnopenableFileRefused | internal/inventory/inventory.go:319-322 | and one with a regular file that cannot be opened |
| SettledTargets.UnopenableDirectoryRefused | internal/inventory/inventory.go:164-167 | and one with a directory that cannot be opened |
| SettledTargets.UnlistableDirectoryRefused | internal/inventory/inventory.go:115-118 | and one with a directory whose listing breaks off |
| SettledTargets.UnstatableEntryRefused | internal/inventory/inventory.go:139-142 | and one with a name whose metadata cannot be read |
| SettledTargets.ScanCountsItsBytes | internal/inventory/inventory.go:341-388 | on any target the counters are the bytes retained, within the binary budget and within one file of the source budget |
| SettledTargets.SettledScanConservesBytes | internal/inventory/inventory.go:341-414 | on a snapshot they are the summed sizes of the inspected records, within both budgets |
| RuntimeScope.RuntimeReferencedPaths | internal/analyze/scope.go:54-96 | for every iteration order the loop ends with the least set that holds the roots and is closed under mentions |
| RuntimeScope.MoreFilesReachMore | internal/analyze/scope.go:54-70 | passing more inventory files never removes a path |
| RuntimeScope.SelectRelatedScope | internal/analyze/scope.go:141-158 | the early-returning loop gives the common scope, or unknown |
| RuntimeScope.RelatedScopeIff | internal/analyze/scope.go:141-158 | a known scope is claimed iff there are related operations and all of them have it |
| RuntimeScope.AnalysisResult.AnnotateScopes | internal/analyze/scope.go:10-52 | in place, every record gets the scope that reachability and its operations determine |
| RuntimeScope.ResourceFollowsItsOperation | internal/analyze/scope.go:18-25 | a resource gets the scope of its operation |
| RuntimeScope.FindingIsRuntimeIff | internal/analyze/scope.go:26-35 | a finding with related operations is runtime behaviour iff all of them are |
| Qml.SkipString | internal/analyze/qml.go:346-358 | stops at the first code after the string, or at the end of the text |
| Qml.MatchDelimiter | internal/analyze/qml.go:315-344 | finds the first return to depth zero outside strings and comments, or shows there is none |
| Qml.SkipSpaceAndComments | internal/analyze/qml.go:289-313 | stops at the first shown byte: code that starts neither space nor comment, or the byte left over from an unclosed comment |
| Qml.OutOfCodeIff | internal/analyze/qml.go:300-309 | in one scan that starts in code, a shown byte is no code iff it is the last byte of a text that ends in an unclosed block comment |
| Qml.LeftoverIsRead | internal/analyze/qml.go:267-313 | such a byte is read: `/*x` yields the token `x` |
| Qml.NextToken | internal/analyze/qml.go:267-287 | the whole identifier at the first shown byte that can start one, or the end when there is no such byte |
| Qml.ProcessBlocks | internal/analyze/qml.go:150-172 | exactly the blocks whose brace follows the word `Process` in code across spaces and comments and is closed, each the next one after the last, none missed |
| Qml.BlocksOfIsUnique | internal/analyze/qml.go:150-172 | a text has one such list of blocks |
| Qml.CommandExpressions | internal/analyze/qml.go:174-208 | exactly the values after `command` and `:`, each ending past its bracket pair or with its line, each the first of a scan from the end of the last, none missed |
| Qml.ExpressionsOfIsUnique | internal/analyze/qml.go:174-208 | a block has one such list of expressions |
| Qml.DepthStaysPositive | internal/analyze/qml.go:315-344 | nothing inside a block closes it early |
| QmlRestarts.ScansInCodeIff | internal/analyze/qml.go:174-208 | up to any expression the scans of a block start in code of the document iff every unbracketed value before it is closed on its line |
| QmlRestarts.ExpressionsInCodeIff | internal/analyze/qml.go:174-208 | all scans that find an expression start in code of the document iff no unbracketed value but the last leaves a string or comment open, and then every expression starts in code |
| QmlRestarts.StringIsRead | internal/analyze/qml.go:201-205 | in `{command:"a;command:[b]"}` the second expression is `[b]`, inside the string literal |
| QmlRestarts.CommentEndsInTime | internal/analyze/qml.go:201-205 | a scan can start inside a comment and still find an expression in code, so the condition is about scans |
| ResourceScope.Manager.Run | internal/resource/scope.go:72-124 | cancelled or not, it returns by the operation timeout with a whole teardown timeout, and succeeds iff the command finished with success under its context and this teardown confirmed the unit gone |
| ResourceScope.Manager.Terminate | internal/resource/scope.go:225-267 | success is backed by answers and readings of this teardown: not-found, inactive without cgroup, or the named cgroup seen gone or empty |
| ResourceScope.Manager.WaitCgroupEmpty | internal/resource/scope.go:360-384 | polls while the cgroup is populated and ends by the deadline; the last reading of this wait decides the verdict |
| ResourceScope.ParsePopulated | internal/resource/scope.go:386-406 | a state is read iff exactly one populated line exists and it says 0 or 1 |

## Left out

- Text that no listed enumeration value has: scopes, confidences, severities, claims, reasons and statuses are closed types, so `oneOf` refusals of other texts are not modelled; node kinds and relationship types stay open.
- Schema version, timestamps, sandbox and resource-limit metadata of the main validator: they are the parameter `metadataValid` of `ReportValidator.Environment`, one truth value, since canonicalisation touches none of them. Strings of fields that are not modelled are not checked either. Error messages are not modelled.
- Nil as against empty for the top-level collections, review reasons, operation arguments and the lists of unknowns: only the nested lists that canonicalisation turns into nil are modelled with it.
- Flags of ELF files and archive entries that no check or sort reads (set-user-ID, capability effective, encrypted, unsafe path, mode and link target of an archive entry, completeness of an archive).
- A nil report, and the JSON text of an encoded report with its 16 MiB bound.
- The refusal of limits that are not positive, a target that is no directory or cannot be opened, and metadata that cannot be read again once a file or directory is open. The text of limitations and what ELF metadata is read are not modelled.
- Files of an unchanged target that hold more or fewer bytes than their size says, as in a proc filesystem.
- The Go decoder that turns bytes into tokens: its syntax errors are one token, `Broken`.
- `filepath.Clean`, `filepath.Base`, tooling and metadata path rules, and case folding: parameters.
- `qmlCommandArray`, which can step past its text on an unfinished escape, and the classification of commands; the shell analyzer, capability tables and manifest parsing.
- Openat2, descriptors, Bubblewrap, systemd and cgroup file reading: a subprocess is an answer and a duration, a cgroup reading is a list of fields, and files are read in no time. The cgroup path check is the parameter `ownedCgroup`; unit names and command lines are not modelled.
