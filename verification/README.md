# Forensic artifact store: a verified model

The library keeps forensic cases. A case is a catalog of activities, entities and the edges
between them, beside a content-addressed store of blobs. Agents and tools work on one case at
the same time; every change is one serializable transaction that commits revision n + 1 and
one event of a hash chain. This project models that system in Dafny and proves what its
documentation promises.

## How the model is laid out

| files | what they hold |
|---|---|
| `Provenance`, `Catalog`, `CatalogInvariants` | the case catalog as a state machine: activities, entities, inputs, outputs, typed rows, findings, producer keys, parser cache, idempotency keys; 18 kinds of request; the invariant of every reachable catalog and what every later catalog keeps |
| `Effects` | what each of those requests does, told on the tables: when it commits, which rows it adds, what it leaves alone, what it returns |
| `CaseHistory`, `ParserCache`, `PinnedFindings` | what follows over whole runs |
| `Recovery`, `FindingRows`, `TreeScan`, `Mutation` | loops and objects of the source over that machine: recovery, member rows, tree scan, the retried transaction with its audit event |
| `Queries`, `QueryMeaning`, `QueryEngine`, `Glob` | query validation, meaning, that meaning told from the tables alone, cached evaluation, pages, freeze, globs |
| `Graph`, `Closures`, `Trace` | recursive SQL closures, the closure worklist of projections, the trace worklist |
| `Projections`, `Materialization`, `WrittenPaths`, `Paths`, `FileNames`, `Bag` | who is in a projection, budgets and paths of a materialization, file names, BagIt packages |
| `Audit`, `Cas`, `Monitor`, `Search` | the hash chain, blob publication by crashing writers, the activity handle's monitor, chunked byte search |
| `CanonicalJson`, `JsonReader` | canonical JSON, and a reader after the grammar of RFC 8259 that gives the value back |
| `Common`, `Order` | result types, the (kind, id) order, sorted listings |

Tables are finite maps and sets; a query is a comprehension read in key order. Identifiers are
values chosen by the caller of a request, who in the library is a random generator; a request
that reuses one is refused. SHA-256 is a parameter: no result assumes it is injective, and the
result about the audit head hands over a collision when the conclusion fails. Clocks, JSON
decoding of audit events, file-system contents and the moments at which writers stop are
parameters or steps.

## Where the code and its documentation differ

* `docs/design.md:533` says that a query at a revision cannot see later finding revisions, so
  that its answer is stable. At any nesting of ancestors, descendants and negation it is, as long
  as no finding the query asks about lists an old entity anew and no selection it names is stored
  over old entities later. `Queries` proves that; for a query that only asks for membership of
  one finding, `PinnedFindings` proves that the condition is exact, and that revising a finding
  can always break it.
* The kind of an assertion target is stored as the caller gave it (forensic/records.go:394-398),
  so the check of `Verify` on target kinds reports exactly what callers got wrong.
* The match cap of a chunk counts matches in its leading context (forensic/search.go:123), which
  the loop then drops. `Search` proves exactly when this loses a hit, and shows one.
* `InspectRecovery` reads the object rows and the blob files at different times
  (forensic/recovery.go:238-275). `Cas` proves exactly when no report can be wrong and shows a
  stale one.
* The `revision` column of audit rows is not covered by the chain (forensic/verify.go:362-367).
* The byte budget of a tree scan is checked against the size read before a file is copied
  (forensic/source_tree.go:374-407). `TreeScan` proves by how much a scan overruns it, and shows
  that it can be by any amount.
* `docs/design.md:662` rejects names of Windows devices. The code puts an underscore before them
  and cuts names at 180 characters afterwards (forensic/projection.go:668-673). `FileNames`
  proves exactly when that cut brings a device name back, and shows a name for which it does.
* The self-check of a BagIt export compares the copied bytes with the digests on record
  (forensic/export.go:343-380). `Bag` proves that it fails exactly for a missing or damaged blob
  file, and that blobs published through `Cas` are neither.

## Model

| member | source | states |
|---|---|---|
| Provenance.ApplyInv | forensic/activity.go:229-435 | whatever step commits, each entity has one output edge, from its generating activity, and the revision that seals an activity lies after all its inputs and not after its outputs |
| Provenance.ApplyExtends | forensic/activity.go:229-496 | a commit adds exactly one revision; sealed inputs, terminal activities, entities and edges of the old catalog are untouched |
| Provenance.OneShotResult | forensic/query.go:700-721 | a one-transaction activity adds exactly its own entities, all at the new revision, and its inputs existed before |
| Provenance.EdgeGoesBack | forensic/activity.go:246-257 | every input is strictly older than every output of the same activity |
| Provenance.AncestorIsOlder | forensic/query.go:593-596 | every strict ancestor was created at a strictly earlier revision |
| Provenance.ProvenanceIsAcyclic | forensic/verify.go:154-173 | no entity is its own ancestor |
| Provenance.OldEdgesAreFixed | forensic/activity.go:405-432 | no later step changes which inputs an existing entity derives from |
| Provenance.AncestorsAreFixed | forensic/query.go:585-629 | the strict ancestors of an entity are the same in every later catalog, although the recursive query has no revision bound |
| Provenance.DescendantsAreFixed | forensic/query.go:597-601 | restricted to entities that existed, the strict descendants are the same in every later catalog |
| Graph.ClosureLeast | forensic/query.go:503 | the rows of a recursive query are inside every closed set that contains the start |
| Graph.StrictReachIsPaths | forensic/query.go:593-601 | the recursive query returns exactly the ends of paths of at least one edge |
| Graph.StrictReachInverse | forensic/query.go:592-602 | ancestor and descendant queries are converse relations |
| CatalogInvariants.CallRowsOk | forensic/verify.go:148-241 | the rows of every committed call satisfy what the kind, lineage, evidence root, tree file, finding, selection and projection checks look for |
| CatalogInvariants.TreeRowsHaveShape | forensic/source_tree.go:244-314 | a tree import writes one evidence row whose only root is the manifest, one tree row, and for each file an object with that file's digest and size |
| CatalogInvariants.ChainGrows | forensic/records.go:614-621 | adding that version keeps every finding's chain sound and its versions unique |
| CatalogInvariants.CallKeeps | forensic/catalog.go:509-548 | a committed call keeps the invariant of the whole catalog and only extends it, by one revision, which the reply carries |
| CatalogInvariants.RequestKeeps | forensic/catalog.go:486-594 | a request commits one revision of a sound, larger catalog or changes nothing |
| CatalogInvariants.RunKeeps | forensic/catalog.go:486-561 | every run keeps the invariant and only extends the catalog |
| Effects.NewCaseSays | forensic/repository.go:255-290 | a new case is at revision 1 with the finished activity that made it and nothing else |
| Effects.BeginEffect | forensic/activity.go:131-221 | beginning commits exactly for a new identifier and adds a running, open activity of its caller alone |
| Effects.UseEffect | forensic/activity.go:229-259 | a use commits exactly for a running, unsealed activity, an existing entity and a new edge, and adds that input row alone |
| Effects.SealEffect | forensic/activity.go:261-288 | sealing commits exactly once for a running activity, and records the new revision on its row alone |
| Effects.EmitEffect | forensic/activity.go:405-432 | an emission commits exactly for a running activity and a new identifier; it adds the entity and its output edge, seals the activity at the new revision if nothing had, and changes no other row |
| Effects.FinishEffect | forensic/activity.go:473-487 | a finish stores exactly the outcome asked for, on a running activity only; the same outcome again is a replay |
| Effects.InterruptEffect | forensic/recovery.go:307-349 | interruption commits exactly if every named activity is running, ends those and touches no other |
| Effects.UseInputEffect | forensic/activity.go:229-259 | the request commits exactly when its key is unused, it names an entity and a role, and the step commits; afterwards the inputs are the old ones and that edge, and no other table changed |
| Effects.PlainRequestEffect | forensic/activity.go:131-288 | so for requests that begin, seal or interrupt |
| Effects.FinishRequestEffect | forensic/activity.go:473-487 | so for a finish, which stores the outcome and changes no other table |
| Effects.EmissionCommitsIff | forensic/records.go:57-146 | a capture, artifact or assertion commits exactly when its key and producer key are unused, its activity runs, its identifier is new, an artifact's source is an object the activity used, and an assertion's targets exist |
| Effects.EmissionEffect | forensic/records.go:98-146 | it then is an output of its activity with exactly the typed row given |
| Effects.EmissionKeepsRest | forensic/records.go:98-146 | besides that row it leaves its producer key and nothing else |
| Effects.UsedIsAncestor | forensic/activity.go:246-257 | an entity used by an activity is a strict ancestor of whatever the activity emits later, in every later catalog |
| Effects.OneTransactionCommitsIff | forensic/catalog.go:486-548 | a request for a whole activity (import, freeze, projection, saved search, publication, finding) commits exactly when its key is unused, its arguments are in order, what it makes is new and what it uses exists |
| Effects.ImportEvidenceEffect | forensic/activity.go:543-632 | an import makes the evidence with its one root object, which has the digest, size and path given |
| Effects.ImportTreeEffect | forensic/source_tree.go:244-314 | a tree import makes the evidence with the manifest as root and the files beside it, the tree with its entries, and an object with the digest, size and path of each file |
| Effects.FreezeEffect | forensic/query.go:664-726 | a frozen selection lists the picked entities in order by their own kinds, with the revision observed, and its activity used exactly them |
| Effects.ProjectionEffect | forensic/projection.go:93-152 | a projection stores the included and the excluded members on their own sides, from its selection |
| Effects.SaveSearchEffect | forensic/search.go:298-458 | a saved search makes one artifact per hit on its object and the selection of them in order at the new revision, from the source selection and the objects searched |
| Effects.PublishEffect | forensic/export.go:418-470 | a publication makes exactly the manifest and deliverable rows given, from exactly the inputs given |
| Effects.AuthorEffect | forensic/records.go:416-511 | a new finding points at its first revision, which lists exactly the members given |
| Effects.ReviseEffect | forensic/records.go:547-624 | a revision is the next version, names the one before, lists exactly the members given, and the finding moves to it under its title |
| Effects.StoreCacheEffect | forensic/parser.go:288-310 | a cache row is stored exactly for a new key, an existing activity and distinct existing outputs, and nothing else changes |
| Effects.ReplySays | forensic/catalog.go:563-594 | a committed request returns what it made with the new revision, and stores exactly that under its key if it has one |
| CaseHistory.ChecksMean | forensic/verify.go:148-191 | each check reports exactly the entities for which the named relation between edges, rows, kinds or revisions fails |
| CaseHistory.RunsPassVerification | forensic/verify.go:148-191 | in every reachable catalog the generation, lineage, activity, future-input, evidence, finding, tree, selection, projection and revision checks report nothing, and those relations hold |
| CaseHistory.AssertionKindIsTheCallers | forensic/records.go:394-398 | in every reachable catalog the check on target kinds reports an entity if and only if some committed call related it by a wrong kind |
| CaseHistory.FirstOutputSealsInputs | forensic/activity.go:405-415 | after an activity's first output its inputs are the same in every later catalog |
| CaseHistory.TerminalIsFinal | forensic/activity.go:473-487 | once an activity is terminal its row, inputs and outputs never change |
| CaseHistory.EntitiesAreImmutable | forensic/activity.go:419-432 | an entity's row, typed row, output edge and creation revision are fixed for ever |
| CaseHistory.FindingHistory | forensic/records.go:562-616 | a finding's versions are exactly 1 to n, each names the one before, the finding points at n, and no other revision belongs to it |
| CaseHistory.HistoryOnlyGrows | forensic/records.go:547-624 | later revisions extend a history and never rewrite it |
| CaseHistory.RevisionCommitsIff | forensic/records.go:547-624 | a revision commits, as the finding's next version, exactly when the finding still points at the expected revision, its identifiers are new, its members distinct and existing, and its key unused |
| CaseHistory.OneReviserWins | forensic/records.go:567-621 | of revisers that expect the same revision, with or without keys, exactly one appends; whatever is served in between, every other gets a conflict or the reply stored under its own key |
| CaseHistory.ReplayRepeatsReply | forensic/catalog.go:563-594 | a request repeated under its key, at any later time, returns the first reply and changes nothing; another request under the key is refused |
| CaseHistory.ProducerKeyRepeatsArtifact | forensic/records.go:57-146 | an artifact emitted again under its producer key is the first one, even after its activity ended; another fingerprint is a conflict |
| Recovery.Tables.MarkActivitiesInterrupted | forensic/recovery.go:307-349 | the loop of row updates ends all named activities or, after a rollback, none; repeated or empty identifiers and a missing reason are refused |
| FindingRows.FlattenMembers | forensic/records.go:633-648 | members come out by role, then identifier, each as often as it was listed |
| FindingRows.MemberTables.InsertMembers | forensic/records.go:600-607 | the insert loop succeeds exactly when no member repeats and every entity exists, and then writes the planned member and input rows |
| TreeScan.Scan | forensic/source_tree.go:327-422 | a scan succeeds exactly when entries, files and bytes read fit the limits, and returns every entry once, sorted by path |
| TreeScan.OverrunIsLastGrowth | forensic/source_tree.go:374-407 | an accepted scan exceeds the byte limit by exactly what the last file grew beyond the slack it was admitted with, whatever the earlier files did; if it did not grow the limit holds |
| TreeScan.GrowingFileOverruns | forensic/source_tree.go:374-407 | under any limits that admit a file there is an accepted scan that stages any given number of bytes too many |
| Mutation.CaseFile.constructor | forensic/repository.go:255-290 | a new case has revision 1 and a one-event log that a verifier accepts |
| Mutation.CaseFile.Mutate | forensic/catalog.go:486-561 | after at most four attempts the case has served the request once, with one new event, or is untouched; a replay returns the old revision; an error with a change comes only from a fault after the commit |
| Mutation.CaseFile.Migrate | forensic/migration.go:204-285 | a migration adds one event and one revision and no entity; a second one is refused and changes nothing |
| ParserCache.ActivityOutputEntities | forensic/parser.go:271-286 | the listing of an activity's outputs is exactly its output set by role and identifier |
| ParserCache.ListingIsStable | forensic/parser.go:271-286 | the listing of a terminal activity is the same in every later catalog |
| ParserCache.CacheStaysExact | forensic/parser.go:70-135 | in every run of any number of parsing sessions, an activity whose Finish returned without error is terminal, and every cache row, and every row about to be stored, lists such an activity's whole output |
| ParserCache.EndedIsTerminal | forensic/activity.go:473-487 | whether its transaction commits or replays, after a Finish the activity is terminal, then and at any later time |
| ParserCache.CachedOutputsAreGenerated | forensic/verify.go:172 | the parser-cache-output check never reports |
| ParserCache.HitEqualsRecomputation | forensic/parser.go:218-310 | a hit returns what listing the source activity again would return, for ever, and the row a key got first is the one it keeps |
| Queries.ValidateQuery | forensic/query.go:35-82 | the counting walk accepts exactly the well-formed queries of at most 256 nodes and depth 32 |
| QueryMeaning.ValidMeans | forensic/query.go:35-82 | that is: every node has the children and arguments its operator asks for, no path is longer than 32 steps, and there are at most 256 nodes |
| QueryMeaning.AncestryIsLines | forensic/query.go:585-629 | the recursive ancestor query finds exactly the entities at the far end of a line of derivations, each by an activity that used the one and made the other |
| QueryMeaning.MatchesIsSays | forensic/query.go:345-583 | a leaf of each kind holds of an entity exactly when the tables say so (kind, identifier, digest, path, size, schema, media type, the generating activity's session, agent and tool, values, times, revision, membership in a selection, tree, evidence or finding), and a relation exactly when such a line exists |
| QueryMeaning.AnswerMeans | forensic/query.go:84-127 | the answer at a revision is exactly the entities created by then of which the query says so |
| Queries.MembershipIsFixed | forensic/query.go:402-520 | what a selection, tree, evidence or descent leaf or a relation says about an existing entity never changes |
| Queries.SettledMeaning | forensic/query.go:345-583 | at any nesting of ancestors, descendants and negation, a query means the same of a visible entity in a later catalog if no finding it names lists a visible entity anew and no selection it names was stored meanwhile over visible entities |
| Queries.SettledAnswer | forensic/query.go:129-200 | then its whole answer at the pinned revision is the same |
| Queries.PinnedAnswer | forensic/query.go:129-200 | the pinned answer of a query that names no finding and only stored selections is the same in every later catalog |
| PinnedFindings.PinnedFindingAnswer | forensic/query.go:475-497 | the pinned answer of a query for the members of one finding is the same later if and only if no revision of the finding lists a visible entity that was not a member |
| PinnedFindings.RevisionMovesPinnedAnswer | forensic/records.go:600-607 | one revision moves the pinned answers exactly when it lists a visible entity that no revision has named |
| PinnedFindings.OldEntityEntersPinnedAnswer | forensic/query.go:475-497 | in every case with a finding and a visible entity outside it, revising the finding commits and puts that entity into an answer already given |
| QueryEngine.CacheKeysAreDistinct | forensic/query.go:402-588 | two different sets never share an entry of the membership cache |
| QueryEngine.Evaluator.MatchQuery | forensic/query.go:345-549 | evaluation through both caches returns the plain recursive meaning, and every cached set and view equals what it stands for |
| QueryEngine.Evaluator.MatchRelated | forensic/query.go:551-583 | a relation holds exactly when some relative visible at the revision matches, whichever views were cached or loaded in batches of 400 |
| QueryEngine.Evaluator.LoadByIds | forensic/query.go:228-255 | the batches together load exactly the visible rows among the identifiers |
| QueryEngine.RunQuery | forensic/query.go:84-127 | an invalid query is refused; any other returns, once each in (kind, id) order at the current revision, every entity that the tables say it selects, and no other |
| QueryEngine.AfterIsGreater | forensic/query.go:211-214 | comparing the stored text of a cursor is comparing in the (kind, id) order |
| QueryEngine.QueryPage | forensic/query.go:132-200 | a page is refused exactly for an invalid query, limit, cursor or revision; otherwise its revision is the one asked for, or the current one if none is, every entity on it was created by then, and it holds the first matches after the cursor up to the limit asked for or 1000; Next is its last entity if it is full and empty if nothing is left |
| QueryEngine.CallsAreTraversal | forensic/query.go:129-200 | calls that pass on the returned revision and cursor are a traversal of one query at one revision under one limit, whatever commits between them |
| QueryEngine.TraversalFrom | forensic/query.go:129-200 | following Next at one revision, over catalogs that agree on the answer there, yields every match of any query once, in order, in at most one page more than full pages |
| QueryEngine.PagesEqualQuery | forensic/query.go:84-200 | the joined pages of such a traversal are what one Query returns at that revision |
| QueryEngine.QuietPages | forensic/query.go:84-200 | with no writer active that holds of every query |
| QueryEngine.PagesWhileWriting | forensic/query.go:84-200 | with writers active it holds of every query that stays settled, and without a condition of one that names no finding and only stored selections |
| QueryEngine.FreezeStoresAnswer | forensic/query.go:664-726 | whatever commits between answering and inserting, freezing goes through and stores the answer unchanged |
| Glob.Translate | forensic/query.go:634-656 | the translation loop writes the expression of the pattern's tokens |
| Glob.TranslationPreservesMeaning | forensic/query.go:631-662 | the written expression accepts exactly the paths the pattern means |
| Glob.MatcherDecides | forensic/query.go:631-662 | a direct matcher decides that meaning |
| Glob.GlobMatch | forensic/query.go:631-662 | matching agrees with the regular expression on the normalised pattern and path |
| Glob.SingleStarsKeepDepth | forensic/query.go:638-651 | a pattern without a double star only matches paths with as many slashes as it has |
| Closures.PoliciesAreOrdered | forensic/projection.go:203-249 | exact is inside input-bytes is inside full-provenance, sources equals full-provenance, finding-context is inside full-provenance |
| Closures.ResolvedMeans | forensic/projection.go:154-249 | told on the input, kind, tree and member rows: exact selects the selected alone, input-bytes also the objects and manifests their activities used and the tree's files, and each other policy everything at the end of a trail of its own steps |
| Closures.FindingMembersAreInputs | forensic/records.go:495-503 | every finding member is an input of the activity that wrote the revision |
| Closures.ResolvedIsFixed | forensic/projection.go:154-252 | the closure of existing entities is the same in every later catalog |
| Closures.Resolve | forensic/projection.go:154-252 | the worklist returns exactly the selection, one step of it or the least fixed point, as the policy says, although each of its queries may read the case at another, later time; an unknown policy is refused unless nothing is selected |
| Closures.ReasonsAreGood | forensic/projection.go:183-246 | every other member's reason names a member that brings it in by the policy's rows, with the tag of that policy and row, and the reasons lead back to a selected one |
| Closures.SortedMembers | forensic/projection.go:254-266 | the member table is listed once each in (kind, id) order |
| Closures.ResolveClosure | forensic/projection.go:154-266 | the sorted listing of a resolution |
| Trace.RunTrace | forensic/provenance.go:83-148 | the two-set worklist ends with the entity and exactly its strict ancestors, their generating activities, one generated edge per entity and one used edge per input row, although each turn may read the case at another, later time; an unknown root is not found |
| Trace.TraceAgreesWithQueries | forensic/provenance.go:104-137 | a trace lists exactly what the query engine's ancestor set holds, though they follow different columns |
| Trace.TraceEdgesAreExact | forensic/provenance.go:113-134 | each listed entity has exactly one generated edge and every input row of its activity a used edge |
| Trace.TraceIsFixed | forensic/provenance.go:83-148 | tracing an entity again later gives the same entities, activities and edges |
| Trace.FullProvenanceCoversTrace | forensic/projection.go:209-210 | the full-provenance closure of an entity contains everything its trace lists |
| Projections.PartitionMembers | forensic/projection.go:56-91 | the partition is refused exactly for an empty kind, a malformed or repeated exclusion, or one outside the closure |
| Projections.PartitionMeans | forensic/projection.go:56-91 | told on the arguments: a member stays exactly when no exclusion names it and it is of a kind asked for; every other goes with the reason given for it, or the filter's |
| Projections.PartitionIsExact | forensic/projection.go:70-91 | every resolved member is on exactly one side, with the caller's reason or the filter's, and nothing else is on either |
| Projections.PartitionKeepsOrder | forensic/projection.go:73-85 | both sides keep the closure's order |
| Materialization.Writer.AddSupportFile | forensic/projection.go:817-828 | a sidecar is added exactly when the manifest with it is within both budgets; the 64-bit total always equals the sizes in the manifest |
| Materialization.Writer.AddFindings | forensic/projection.go:774-815 | the findings that have no sidecar yet get one each, exactly when all of them fit |
| Materialization.Writer.AddBytes | forensic/projection.go:453-492 | a member's bytes are added, under the layout's path or under that with its identifier if another file has it, exactly when they fit both budgets and the path is short enough, inside the directory and free |
| Materialization.Materialize | forensic/projection.go:371-493 | a materialization goes through exactly when every planned sidecar and entry fits, and then writes the planned manifest |
| Materialization.ManifestIsExact | forensic/projection.go:371-493 | that manifest is within both budgets and has one sidecar of each wanted role for each member, one for each finding revision of a member, one entry with the object's size, digest and reason for each wanted member, no path of an entry twice, and nothing else |
| Materialization.WrittenAsAsked | forensic/projection.go:371-493 | told on the request: bytes are written exactly for members with an object if bytes are asked for, except metadata of sources; limits that are not positive mean 100000 files and 2 to the 40 bytes |
| WrittenPaths.LayoutSays | forensic/projection.go:599-620 | the parts of the path of a member's bytes under each layout |
| WrittenPaths.NameSays | forensic/projection.go:600-604 | the file name is the sanitized display name, or the sanitized end of the path where that leaves nothing |
| WrittenPaths.PathStaysInside | forensic/projection.go:453-492 | whatever names, paths and evidence identifiers hold, the path is clean and inside the target directory |
| WrittenPaths.EntrySays | forensic/projection.go:453-492 | a wanted member adds one entry with its object's size, digest and reason, under the layout's path or, if an earlier entry has that path ignoring case, under the one for collisions |
| WrittenPaths.SidecarSays | forensic/projection.go:736-815 | a sidecar is a JSON file in the directory of its role, named for what it describes |
| WrittenPaths.CollisionSays | forensic/projection.go:630-640 | on a collision the end of the identifier goes before the extension of the last path element, or to the end if it has none |
| Materialization.ByIdPathsDiffer | forensic/projection.go:599-620 | under the by-id layout distinct members never share a path, even ignoring case |
| Materialization.ManifestPathsDiffer | forensic/projection.go:371-493 | under the by-id layout no two paths of a finished manifest, files and sidecars together, are equal even ignoring case, if members and findings have generated identifiers |
| Paths.SanitizedIsSafe | forensic/projection.go:652-675 | a sanitized name is never empty, dot or dot-dot, has no separator, control or reserved character, starts with neither dot nor space, and has at most 180 characters |
| FileNames.SanitizedName | forensic/projection.go:652-675 | a sanitized name is the given one without the white space and dots at its ends, forbidden characters replaced one by one, an underscore for an empty name and before a device's, and at most 180 characters of that |
| FileNames.DeviceComesOutIff | forensic/projection.go:668-673 | a sanitized name is that of a device if and only if the cleaned name is longer than 180 characters, is no device's, and its first 180 characters are |
| FileNames.LongNameBecomesDevice | forensic/projection.go:668-673 | there is such a name |
| Paths.MintedIsKept | forensic/ids.go:27-41 | sanitizing leaves generated identifiers alone |
| Bag.WriteManifest | forensic/export.go:354-361 | the manifest lists the payload once each in path order |
| Bag.ManifestRoundTrip | forensic/verify.go:461-483 | writing the manifest of any payload map an export builds and reading it with the reader's line, split and path rules gives the same map |
| Bag.SafePathMeans | forensic/verify.go:571-579 | the reader accepts exactly the paths made of names between single slashes, without dot names, backslash or zero character, that are under data/ exactly where payload is wanted |
| Bag.LineEndings | forensic/verify.go:461-470 | a line ends at a line feed with or without a carriage return before it |
| Bag.SoundBagIsDeclared | forensic/verify.go:449-460 | a sound bag declares BagIt version 1.0 |
| Bag.CheckLines | forensic/verify.go:464-503 | the line loop reports nothing exactly when every line is well formed, safe, new and names a regular file with its digest |
| Bag.VerifyBagIt | forensic/verify.go:449-569 | a bag is reported sound if and only if its declaration, both manifests and its data directory are |
| Bag.SoundBagMatchesManifest | forensic/verify.go:553-567 | a sound bag has exactly the payload files of its manifest, each with its digest |
| Bag.PayloadPathIsSafe | forensic/verify.go:571-579 | the path of every exported file passes the reader's path rules |
| Bag.ItemPathsDiffer | forensic/export.go:334-342 | no two members are written to one path, whatever their display names |
| Bag.SoundIfFaithful | forensic/export.go:343-380 | the package an export writes passes its self-check exactly when the bytes copied to each path have the digest on record |
| Bag.ExportBag | forensic/export.go:324-380 | an export publishes a sound bag of exactly the members' bytes, four tag files and a tag manifest of the other three, if every member's blob file is there with the recorded digest, and nothing otherwise |
| Bag.StoredItemsAreIntact | forensic/cas.go:71-128 | in every run of every writer the committed objects of the case are such members |
| Audit.DecimalIsInjective | forensic/catalog.go:526 | different sequence numbers have different decimal texts |
| Audit.DecimalReads | forensic/catalog.go:526 | a decimal text has the value of its number and no leading zero |
| Audit.AcceptedRowSays | forensic/verify.go:320-350 | an accepted row carries the hash of the version tag, its number, the hash before it and its body, which repeats them |
| Audit.PreimageIsInjective | forensic/catalog.go:524-528 | the parts of a hashed text can be read back although nothing separates them |
| Audit.VerifyAudit | forensic/verify.go:314-374 | the checker reports no issue exactly for accepted logs |
| Audit.SameHashSameChain | forensic/verify.go:320-350 | two accepted chains that end in one hash are the same chain, or two texts with one hash are handed over |
| Audit.HeadPinsLog | forensic/verify.go:351-361 | the audit head pins sequence, previous hash, body and hash of every row, and the revision, up to a collision |
| Audit.RevisionColumnIsFree | forensic/verify.go:362-372 | an accepted log whose revision numbers were rewritten is accepted if and only if the same numbers occur |
| Audit.RevisionsMayBeExchanged | forensic/verify.go:362-372 | so two rows may exchange theirs |
| Audit.AppendIsAccepted | forensic/catalog.go:517-535 | one more event keeps the log accepted with revisions exactly 1 to n |
| Audit.AppendedEventSays | forensic/catalog.go:517-535 | the appended body decodes to the actor, session, operation, affected entities and request digest given, at the next sequence and after the old head |
| Cas.TakeKeeps | forensic/cas.go:22-128 | no step of any writer, and no crash between steps, breaks the store or replaces a blob |
| Cas.RunIsSafe | forensic/cas.go:71-96 | so in every interleaving, and the catalog only grows |
| Cas.StagedIsCopied | forensic/cas.go:22-69 | in every interleaving what a writer has staged is the concatenation of the bytes it copied since it created its file |
| Cas.PublishesWhatItCopied | forensic/cas.go:71-96 | when a writer publishes, it publishes the hash and the length of all those bytes, and the blob under that hash has that length and hashes to it |
| Cas.AloneItPublishesAll | forensic/cas.go:22-96 | alone on an empty store a writer leaves one blob, exactly the pieces joined, and no staged file |
| Cas.CommittedObjectsAreStored | forensic/activity.go:390-422 | every committed object has a present blob of its size whose content hashes to its digest |
| Cas.SameDigestSameSize | forensic/verify.go:157 | objects of one digest have one size, so the object-blob-size check never reports |
| Cas.RacersShareBlob | forensic/cas.go:79-95 | writers racing to publish the same content share one blob, which the second leaves untouched |
| Cas.RunLeavesNone | forensic/cas.go:22-96 | as long as no writer crashes, every staged file is that of a writer at work, whether the others published or gave up |
| Cas.FoundBlobIsChecked | forensic/cas.go:92-128 | in whatever state the store is, a writer that finds a blob under its digest leaves it alone, publishes if it has the size and hash, and gives up otherwise |
| Cas.ReportSandwich | forensic/recovery.go:238-275 | the orphan report holds every blob that was there and stays unreferenced, and nothing that was referenced when the rows were read |
| Cas.ReportsAreExactIff | forensic/recovery.go:238-275 | every report the walk can make is exactly the unreferenced blobs of its end, if and only if nothing was linked during the walk and nothing newly referenced since the rows were read |
| Cas.CommitBetweenReadsIsMisreported | forensic/recovery.go:238-275 | a commit between the two reads makes the report name a referenced blob |
| Monitor.Handle.StartCapture | forensic/activity.go:290-301 | a capture is accepted exactly when nobody holds the finish and the handle is not terminal, and then joins the captures in flight, which the counter counts |
| Monitor.Handle.EnterFinish | forensic/activity.go:449-467 | a finish is a no-op on a terminal handle and a conflict while another thread holds it; otherwise the thread claims it, and waits if and only if captures are in flight |
| Monitor.Handle.Wake | forensic/activity.go:459-466 | a woken finisher goes on exactly when nothing is in flight, and gives the claim up only if it was cancelled while something is |
| Monitor.Handle.LeaveFinish | forensic/activity.go:488-495 | leaving gives the claim up and makes the handle terminal on success, with nothing in flight |
| Monitor.TakeKeeps | forensic/activity.go:290-302 | every step of every thread keeps the monitor consistent |
| Monitor.CountsAreExact | forensic/activity.go:290-302 | in every interleaving the counter equals the captures in flight and at most one thread is finishing |
| Monitor.FinishWaitsForCaptures | forensic/activity.go:449-487 | the handle ends its activity only with no capture in flight, with the outcome its finisher was called with, and then accepts none |
| Monitor.FinishSucceedsIff | forensic/activity.go:473-495 | a finish leaves with success exactly if its transaction was committed without error and ended the row or found it ended with the same outcome; then the row holds that outcome, and nothing else changed |
| Monitor.AcceptedCaptureCommits | forensic/activity.go:290-432 | if no other writer ends the activity and no finish reports an error after its commit, every accepted capture can commit until it ends |
| Monitor.ReopenedHandle | forensic/activity.go:488-495 | otherwise it may not: a finish that commits and reports an error leaves the handle open over a terminal row |
| Monitor.RowIsFinal | forensic/activity.go:405-411 | once the activity row is terminal it never changes and no capture commits |
| Monitor.TerminalIsForEver | forensic/activity.go:488-495 | a terminal handle stays terminal with nothing in flight |
| Monitor.FinisherIsNotForgotten | forensic/activity.go:459-466 | no wake-up is lost: when the last capture has ended, a waiting finisher is awake and its next turn commits |
| Search.FindAll | forensic/search.go:123-131 | the match loop returns disjoint true matches in order; for a literal that cannot overlap itself, the first of all its occurrences |
| Search.SearchChunk | forensic/search.go:94-146 | a chunk yields true hits that start in it, with the object's own bytes around them however it is cut |
| Search.SearchBytes | forensic/search.go:47-154 | a search is refused exactly for an empty or oversized literal, context or limit; its hits are true, in order per object, at most the limit |
| Search.ExactIff | forensic/search.go:119-146 | a capped search equals the first hits of all if and only if every chunk fits |
| Search.SearchIsExactIff | forensic/search.go:94-151 | for a literal that cannot overlap itself, chunked search equals whole-object search exactly when no chunk is hurt by the matches of its leading context |
| Search.SearchIsExact | forensic/search.go:94-151 | it does without context, for a limit of one, and for a limit of at least twice the number of occurrences |
| Search.EdgeHitIsLost | forensic/search.go:123 | a 65537-byte object whose search with one byte of context and a limit of two returns one hit of two |
| CanonicalJson.UnitDecodes | forensic/canonical.go:98-103 | one escaped character can be cut off a text in only one way |
| CanonicalJson.PrintDecodes | forensic/canonical.go:65-106 | a printed value can be cut off a text in only one way |
| CanonicalJson.CanonicalIsInjective | forensic/canonical.go:13-106 | two values have one canonical form if and only if they are equal, objects taken as maps |
| CanonicalJson.Encode | forensic/canonical.go:65-106 | the encoder writes that form whatever order a map yields its keys in |
| JsonReader.PrintReads | forensic/canonical.go:65-106 | a reader written from RFC 8259, sections 4 to 7, with its own escapes and digits, gives back any well-formed value from its printed text |
| JsonReader.CanonicalText | forensic/canonical.go:13-26 | so it does from the canonical text |
| JsonReader.UnitSays | forensic/canonical.go:88-103 | exactly quotes, backslashes, control characters, line separators and, inside members, the HTML characters are escaped, seven by a short form and the others by four lower-case digits |
| JsonReader.MembersAreInOrder | forensic/canonical.go:65-106 | the members of an object are written once each in increasing order of their keys |
| Order.NamesAreRead | forensic/types.go:192-201 | a stored name is read as a kind exactly if that kind is written as it |
| Order.RankOrdersNames | forensic/query.go:215 | the order of the kinds is the order of their stored names |
| Order.SortedUnique | forensic/query.go:117-122 | two strictly sorted listings of one set are the same listing |

## Left out

- SQLite, its write-ahead log and busy timeouts: transactions are atomic steps, and a busy database is an outcome of an attempt.
- Agents, sessions, checkpoints and their signatures, process execution, leases, the command line, Markdown and JSON Lines export, presentation views.
- The text and regular-expression branches of search: their results are those of FTS5 and of Go's regexp package.
- Display names, timestamps and confidences: no result depends on them. Instants of time ranges are integers; RFC 3339 parsing is not part of this model.
- Custody transfers, snapshots, materializations and packages enter the catalog through one request, `Publish`, that adds a manifest object, perhaps a deliverable, and inputs.
- Producer keys of saved searches are not indexed; hits are recorded under their own identifiers.
- The typed rows of dependent tables that are written with their owner and never again (artifact values, tree entries, members) are kept inside the owner's row.
- Provenance.ApplyInv: does not model the transactions as methods on tables row by row except in `Recovery`, `FindingRows` and `Mutation`; elsewhere a transaction is a function from the old tables to the new ones.
- Mutation.CaseFile.Mutate: does not model other writers between two attempts of one call; each call is one step of a run instead, and runs interleave calls in any order.
- Cas.RunIsSafe: does not model loss of power; a crash stops a writer and keeps the files, as the file and directory syncs are meant to ensure.
- Glob.GlobMatch: does not model patterns outside ASCII, which the source rewrites byte by byte.
- Queries.ValidateQuery: does not model the textual form of times; a time that does not parse is a missing one.
- QueryEngine.QueryPage: assumes identifiers are not empty, which the generator guarantees (forensic/ids.go:27-41); an empty one would restart the cursor.
- Materialization.Materialize: does not say which error a failure returns nor model failing file operations, and takes the lower-casing of characters as a parameter that keeps lower-case letters, digits and path punctuation; sizes of sidecars are inputs.
- CaseHistory.RunsPassVerification: does not model the tables behind the deliverable-member, source-tree-summary and temporal-index checks, nor the columns of non-file tree entries, which hold no digest and no object; object-blob-size and parser-cache-output are proved in `Cas` and `ParserCache`.
- CatalogInvariants.CallRowsOk: does not model those tables either.
- Bag.ExportBag: does not model failing file operations other than a blob file that is not there.
- Bag.VerifyBagIt: does not follow links when reading tag files, and lines are of any length.
- FileNames.DeviceComesOutIff: does not model capitals outside ASCII; no letter of a device name is the capital of another one.
- QueryMeaning.MatchesIsSays: compares media types and extensions up to the case of ASCII letters; Go's EqualFold also folds others.
- Monitor.FinishWaitsForCaptures: does not model a cancelled context waking a sleeping finisher, because it does not; the caller returns after the next broadcast. An outcome that cannot be encoded (forensic/activity.go:468-471) is left out.
- Search.SearchBytes: does not model short reads; a stored object has the bytes its row says.
- CanonicalJson.Encode: starts from decoded values; the reflection step that turns Go values into them is encoding/json.
