/** What holds along every run of a case: the semantic checks never fire, sealed and
    terminal activities are frozen, finding histories only grow, replays repeat replies. */
module CaseHistory {
  import opened Common
  import opened Order
  import opened Provenance
  import opened Catalog
  import opened CatalogInvariants

  // ---- The semantic checks of Verify ----

  datatype Check =
    | MissingGenerationEdge | GenerationMismatch | ArtifactSourceLineage | ArtifactActivity | FutureInput
    | EvidenceWithoutObject | EvidenceRootCount | FindingCurrent | TreeEntryObject | TreeEvidenceRoot
    | AssertionTargetKind | SelectionMemberKind | ProjectionMemberKind | ProjectionExclusionKind | EntityRevision

  /** The references that the row's member table stores and a check compares by kind. */
  function StoredRefs(check: Check, d: Detail): seq<Ref> {
    match check
    case AssertionTargetKind => if d.AssertionRow? then d.targets else []
    case SelectionMemberKind => if d.SelectionRow? then d.selected else []
    case ProjectionMemberKind => if d.ProjectionRow? then d.included else []
    case ProjectionExclusionKind => if d.ProjectionRow? then d.excluded else []
    case _ => []
  }

  /** The references name entity id by a kind that is not its own. */
  predicate Misnames(c: Catalog, refs: seq<Ref>, id: Id) {
    exists r :: r in refs && r.id == id && id in c.core.entities && c.core.entities[id].kind != r.kind
  }

  /** Some member table does; the check reports the member. */
  predicate ReportsKind(c: Catalog, check: Check, id: Id) {
    exists a :: a in c.details && Misnames(c, StoredRefs(check, c.details[a]), id)
  }

  function Roots(objects: map<Id, EvidenceRole>): set<Id> {
    set o | o in objects && objects[o] == Root
  }

  /** A file entry whose object is missing or has another digest or size. */
  predicate BadEntry(c: Catalog, entries: seq<TreeEntry>) {
    exists e :: e in entries && e.kind.File?
      && !(IsObject(c, e.objectId) && c.details[e.objectId].digest == e.digest && c.details[e.objectId].size == e.size)
  }

  /** The query of one check reports entity id. */
  predicate Reports(c: Catalog, check: Check, id: Id)
    requires id in c.core.entities
  {
    var e := c.core.entities[id];
    match check
    case MissingGenerationEdge => id !in c.core.outputs || c.core.outputs[id].activity != e.generator
    case GenerationMismatch => id in c.core.outputs && c.core.outputs[id].activity != e.generator
    case FutureInput =>
      exists i, x :: i in c.core.inputs && i.entity == id && x in c.core.outputs && c.core.outputs[x].activity == i.activity
        && x in c.core.entities && e.created > c.core.entities[x].created
    case EntityRevision => !(1 <= e.created <= c.core.revision)
    case AssertionTargetKind => ReportsKind(c, check, id)
    case SelectionMemberKind => ReportsKind(c, check, id)
    case ProjectionMemberKind => ReportsKind(c, check, id)
    case ProjectionExclusionKind => ReportsKind(c, check, id)
    case other => id in c.details && ReportsDetail(c, check, id, c.details[id])
  }

  predicate ReportsDetail(c: Catalog, check: Check, id: Id, d: Detail)
    requires id in c.core.entities
  {
    match check
    case ArtifactSourceLineage => d.ArtifactRow? && !Uses(c, d.producedBy, d.source)
    case ArtifactActivity => d.ArtifactRow? && d.producedBy != c.core.entities[id].generator
    case EvidenceWithoutObject => d.EvidenceRow? && d.objects == map[]
    case EvidenceRootCount => d.EvidenceRow? && |Roots(d.objects)| != 1
    case FindingCurrent =>
      d.FindingRow? && !(d.finding in c.findings && c.findings[d.finding].current in c.details
                         && c.details[c.findings[d.finding].current].FindingRow?
                         && c.details[c.findings[d.finding].current].finding == d.finding)
    case TreeEntryObject => d.TreeRow? && BadEntry(c, d.entries)
    case TreeEvidenceRoot =>
      d.TreeRow? && !(d.evidence in c.details && c.details[d.evidence].EvidenceRow?
                      && d.manifest in c.details[d.evidence].objects && c.details[d.evidence].objects[d.manifest] == Root)
    case _ => false
  }

  /** No check but the one on assertion targets can report anything in a sound catalog. */
  lemma SoundCatalogPasses(c: Catalog, check: Check, id: Id)
    requires Inv(c) && id in c.core.entities && check != AssertionTargetKind
    ensures !Reports(c, check, id)
  {
    hide Reports, DetailOk, FindingsOk, ProducersOk, CoreInv;
    if check == FutureInput {
      NoFutureInput(c, id);
    } else if check == MissingGenerationEdge || check == GenerationMismatch || check == EntityRevision {
      CoreReportsNothing(c, check, id);
    } else if check == SelectionMemberKind || check == ProjectionMemberKind || check == ProjectionExclusionKind {
      KindsReportNothing(c, check, id);
    } else {
      assert DetailOk(c, id);
      DetailReportsNothing(c, check, id);
    }
  }

  lemma KindsReportNothing(c: Catalog, check: Check, id: Id)
    requires DetailsOk(c) && id in c.core.entities
    requires check == SelectionMemberKind || check == ProjectionMemberKind || check == ProjectionExclusionKind
    ensures !Reports(c, check, id)
  {
    forall a | a in c.details
      ensures !Misnames(c, StoredRefs(check, c.details[a]), id)
    {
      assert DetailOk(c, a);
    }
  }

  lemma CoreReportsNothing(c: Catalog, check: Check, id: Id)
    requires CoreInv(c.core) && id in c.core.entities
    requires check == MissingGenerationEdge || check == GenerationMismatch || check == EntityRevision
    ensures !Reports(c, check, id)
  {
  }

  lemma DetailReportsNothing(c: Catalog, check: Check, id: Id)
    requires id in c.core.entities && id in c.details && DetailOk(c, id) && FindingsOk(c)
    requires check == ArtifactSourceLineage || check == ArtifactActivity || check == EvidenceWithoutObject
             || check == EvidenceRootCount || check == FindingCurrent || check == TreeEntryObject || check == TreeEvidenceRoot
    ensures !Reports(c, check, id)
  {
    if c.details[id].FindingRow? {
      assert RevisionOk(c, id);
    }
    if c.details[id].EvidenceRow? {
      var objects := c.details[id].objects;
      var r :| IsRoot(objects, r);
      assert Roots(objects) == {r};
    }
    hide CoreExtends, VersionsUnique;
  }

  lemma NoFutureInput(c: Catalog, id: Id)
    requires CoreInv(c.core) && id in c.core.entities
    ensures !Reports(c, FutureInput, id)
  {
    forall i, x | i in c.core.inputs && i.entity == id && x in c.core.outputs && c.core.outputs[x].activity == i.activity
      ensures c.core.entities[id].created < c.core.entities[x].created
    {
      assert (x, id) in AncestorEdges(c.core);
      EdgeGoesBack(c.core, x, id);
    }
  }

  // ---- What the checks look for ----

  ghost predicate NamedByOwnKind(c: Catalog, refs: seq<Ref>, id: Id)
    requires id in c.core.entities
  {
    forall r :: r in refs && r.id == id ==> r.kind == c.core.entities[id].kind
  }

  /** What a check wants of an entity: one generating edge, inputs older than outputs, an artifact
      whose activity used its source, evidence with one root, and so on. */
  ghost predicate InOrder(c: Catalog, check: Check, id: Id)
    requires id in c.core.entities
  {
    var e := c.core.entities[id];
    match check
    case MissingGenerationEdge => exists role :: id in c.core.outputs && c.core.outputs[id] == Output(e.generator, role)
    case GenerationMismatch => id in c.core.outputs ==> c.core.outputs[id].activity == e.generator
    case FutureInput =>
      forall i, x :: i in c.core.inputs && i.entity == id && x in c.core.outputs && x in c.core.entities ==>
        c.core.outputs[x].activity == i.activity ==> e.created <= c.core.entities[x].created
    case EntityRevision => 1 <= e.created <= c.core.revision
    case AssertionTargetKind =>
      forall a :: a in c.details && c.details[a].AssertionRow? ==> NamedByOwnKind(c, c.details[a].targets, id)
    case SelectionMemberKind =>
      forall a :: a in c.details && c.details[a].SelectionRow? ==> NamedByOwnKind(c, c.details[a].selected, id)
    case ProjectionMemberKind =>
      forall a :: a in c.details && c.details[a].ProjectionRow? ==> NamedByOwnKind(c, c.details[a].included, id)
    case ProjectionExclusionKind =>
      forall a :: a in c.details && c.details[a].ProjectionRow? ==> NamedByOwnKind(c, c.details[a].excluded, id)
    case _ => id in c.details ==> RowInOrder(c, check, id, c.details[id])
  }

  ghost predicate RowInOrder(c: Catalog, check: Check, id: Id, d: Detail)
    requires id in c.core.entities
  {
    match check
    case ArtifactSourceLineage => d.ArtifactRow? ==> exists role :: Edge(d.producedBy, d.source, role) in c.core.inputs
    case ArtifactActivity => d.ArtifactRow? ==> d.producedBy == c.core.entities[id].generator
    case EvidenceWithoutObject => d.EvidenceRow? ==> exists o :: o in d.objects
    case EvidenceRootCount =>
      d.EvidenceRow? ==> exists o :: o in d.objects && d.objects[o] == Root && forall p :: p in d.objects && d.objects[p] == Root ==> p == o
    case FindingCurrent =>
      d.FindingRow? ==> d.finding in c.findings && exists row :: IsRowOf(c, c.findings[d.finding].current, row) && row.FindingRow? && row.finding == d.finding
    case TreeEntryObject =>
      d.TreeRow? ==> forall e :: e in d.entries && e.kind.File? ==>
        exists row :: IsRowOf(c, e.objectId, row) && row.ObjectRow? && row.digest == e.digest && row.size == e.size
    case TreeEvidenceRoot =>
      d.TreeRow? ==> exists row :: IsRowOf(c, d.evidence, row) && row.EvidenceRow? && (d.manifest, Root) in row.objects.Items
    case _ => true
  }

  ghost predicate IsRowOf(c: Catalog, id: Id, row: Detail) {
    id in c.details && c.details[id] == row
  }

  /** A check reports exactly the entities that are not in order. */
  lemma ChecksMean(c: Catalog, check: Check, id: Id)
    requires id in c.core.entities
    ensures Reports(c, check, id) <==> !InOrder(c, check, id)
  {
    match check
    case MissingGenerationEdge =>
      if id in c.core.outputs {
        var o := c.core.outputs[id];
        assert o == Output(o.activity, o.role);
      }
    case AssertionTargetKind => KindChecksMean(c, check, id);
    case SelectionMemberKind => KindChecksMean(c, check, id);
    case ProjectionMemberKind => KindChecksMean(c, check, id);
    case ProjectionExclusionKind => KindChecksMean(c, check, id);
    case GenerationMismatch =>
    case FutureInput =>
    case EntityRevision =>
    case _ =>
      if id in c.details {
        RowChecksMean(c, check, id, c.details[id]);
      }
      hide ReportsDetail, RowInOrder;
  }

  lemma KindChecksMean(c: Catalog, check: Check, id: Id)
    requires id in c.core.entities && check in {AssertionTargetKind, SelectionMemberKind, ProjectionMemberKind, ProjectionExclusionKind}
    ensures Reports(c, check, id) <==> !InOrder(c, check, id)
  {
    forall refs: seq<Ref>
      ensures Misnames(c, refs, id) <==> !NamedByOwnKind(c, refs, id)
    {
    }
    assert Reports(c, check, id) <==> ReportsKind(c, check, id);
    assert !Misnames(c, [], id);
    hide Misnames, NamedByOwnKind;
  }

  lemma RowChecksMean(c: Catalog, check: Check, id: Id, d: Detail)
    requires id in c.core.entities
    requires check in {ArtifactSourceLineage, ArtifactActivity, EvidenceWithoutObject, EvidenceRootCount, FindingCurrent, TreeEntryObject,
                       TreeEvidenceRoot}
    ensures ReportsDetail(c, check, id, d) <==> !RowInOrder(c, check, id, d)
  {
    if check.ArtifactSourceLineage? && d.ArtifactRow? {
      UsesMeans(c, d.producedBy, d.source);
    } else if check.EvidenceWithoutObject? && d.EvidenceRow? {
      assert d.objects.Keys == {} <==> d.objects == map[];
    } else if check.EvidenceRootCount? && d.EvidenceRow? {
      OneRootMeans(d.objects);
    } else if check.TreeEntryObject? && d.TreeRow? {
      EntriesMean(c, d.entries);
    }
    assert forall x :: x in c.details ==> IsRowOf(c, x, c.details[x]);
    hide Uses, Roots, BadEntry;
  }

  lemma UsesMeans(c: Catalog, a: Id, e: Id)
    ensures Uses(c, a, e) <==> exists role :: Edge(a, e, role) in c.core.inputs
  {
    if i :| i in c.core.inputs && i.activity == a && i.entity == e {
      assert i == Edge(a, e, i.role);
    }
  }

  lemma OneRootMeans(objects: map<Id, EvidenceRole>)
    ensures |Roots(objects)| == 1 <==>
      exists o :: o in objects && objects[o] == Root && forall p :: p in objects && objects[p] == Root ==> p == o
  {
    var roots := Roots(objects);
    if |roots| == 1 {
      var o :| o in roots;
      assert |roots - {o}| == 0;
      forall p | p in objects && objects[p] == Root
        ensures p == o
      {
        assert p !in roots - {o};
      }
    }
    if o :| o in objects && objects[o] == Root && forall p :: p in objects && objects[p] == Root ==> p == o {
      assert roots == {o};
    }
  }

  lemma EntriesMean(c: Catalog, entries: seq<TreeEntry>)
    ensures BadEntry(c, entries) <==>
      exists e :: e in entries && e.kind.File? && !exists row :: IsRowOf(c, e.objectId, row) && row.ObjectRow? && row.digest == e.digest && row.size == e.size
  {
    forall e | e in entries
      ensures (exists row :: IsRowOf(c, e.objectId, row) && row.ObjectRow? && row.digest == e.digest && row.size == e.size)
              <==> IsObject(c, e.objectId) && c.details[e.objectId].digest == e.digest && c.details[e.objectId].size == e.size
    {
      if IsObject(c, e.objectId) {
        assert IsRowOf(c, e.objectId, c.details[e.objectId]);
      }
    }
  }

  /** Verify's semantic checks find nothing in any catalog a case can reach. */
  lemma RunsPassVerification(who: Actor, a: Id, requests: seq<Request>, check: Check, id: Id)
    requires check != AssertionTargetKind
    requires id in Run(NewCase(who, a), requests).core.entities
    ensures !Reports(Run(NewCase(who, a), requests), check, id) && InOrder(Run(NewCase(who, a), requests), check, id)
  {
    hide Run, Reports, InOrder, Inv;
    NewCaseInv(who, a);
    RunKeeps(NewCase(who, a), requests);
    SoundCatalogPasses(Run(NewCase(who, a), requests), check, id);
    ChecksMean(Run(NewCase(who, a), requests), check, id);
  }

  /** Along the run, a committed Relate named entity t by a wrong kind. */
  ghost predicate RelatedWrongly(c: Catalog, requests: seq<Request>, t: Id)
    decreases |requests|
  {
    requests != [] && (RelatesWrongly(c, requests[0], t) || RelatedWrongly(Next(c, requests[0]), requests[1..], t))
  }

  ghost predicate RelatesWrongly(c: Catalog, r: Request, t: Id) {
    r.call.Relate? && Handle(c, r).Commit? && r.call.assertion.AssertionRow? && Misnames(c, r.call.assertion.targets, t)
  }

  /** The remaining check reports an entity exactly when some caller related it by a wrong kind. */
  lemma AssertionKindIsTheCallers(who: Actor, a: Id, requests: seq<Request>, t: Id)
    requires t in Run(NewCase(who, a), requests).core.entities
    ensures Reports(Run(NewCase(who, a), requests), AssertionTargetKind, t) <==> RelatedWrongly(NewCase(who, a), requests, t)
  {
    NewCaseInv(who, a);
    WrongTargetsOfRun(NewCase(who, a), requests, t);
    hide Run, RelatedWrongly, Inv;
  }

  lemma {:induction false} WrongTargetsOfRun(c: Catalog, requests: seq<Request>, t: Id)
    requires Inv(c)
    ensures ReportsKind(Run(c, requests), AssertionTargetKind, t)
            <==> ReportsKind(c, AssertionTargetKind, t) || RelatedWrongly(c, requests, t)
    decreases |requests|
  {
    hide Inv, Extends, Next, Handle, ReportsKind, RelatesWrongly;
    if requests != [] {
      RequestKeeps(c, requests[0]);
      WrongTargetsAfter(c, requests[0], t);
      WrongTargetsOfRun(Next(c, requests[0]), requests[1..], t);
    }
  }

  lemma WrongTargetsAfter(c: Catalog, r: Request, t: Id)
    requires Inv(c)
    ensures ReportsKind(Next(c, r), AssertionTargetKind, t)
            <==> ReportsKind(c, AssertionTargetKind, t) || RelatesWrongly(c, r, t)
  {
    hide Inv, Extends, Next, Handle, Plan, Misnames, ReportsKind;
    RequestKeeps(c, r);
    if Handle(c, r).Commit? {
      CommittedRequest(c, r);
      var d, eff, reply := Next(c, r), Plan(c, r.call).state, Plan(c, r.call).reply;
      RowsAreNew(c, d, r.call, eff, reply);
      AssertionsPlanned(c, r.call, eff, reply);
      forall a | a in c.details
        ensures Misnames(d, StoredRefs(AssertionTargetKind, c.details[a]), t)
                <==> Misnames(c, StoredRefs(AssertionTargetKind, c.details[a]), t)
      {
        TargetsExist(c, a);
        SameKinds(c, d, StoredRefs(AssertionTargetKind, c.details[a]), t);
      }
      if r.call.Relate? {
        RelatedTargetsExist(c, r.call);
        SameKinds(c, d, r.call.assertion.targets, t);
      }
      NewMisnames(d, r.call, eff.rows, t);
      WrongTargetsJoin(c, d, eff.rows, t);
    }
  }

  lemma NewMisnames(d: Catalog, call: Call, rows: map<Id, Detail>, t: Id)
    requires if call.Relate? then rows == map[call.id := call.assertion] && call.assertion.AssertionRow?
             else forall id :: id in rows ==> !rows[id].AssertionRow?
    ensures (exists a :: a in rows && Misnames(d, StoredRefs(AssertionTargetKind, rows[a]), t))
            <==> call.Relate? && Misnames(d, call.assertion.targets, t)
  {
    if call.Relate? {
      hide Misnames;
      assert call.id in rows;
    }
  }

  lemma WrongTargetsJoin(c: Catalog, d: Catalog, rows: map<Id, Detail>, t: Id)
    requires d.details == c.details + rows && rows.Keys !! c.details.Keys
    requires forall a :: a in c.details ==>
      (Misnames(d, StoredRefs(AssertionTargetKind, c.details[a]), t) <==> Misnames(c, StoredRefs(AssertionTargetKind, c.details[a]), t))
    ensures ReportsKind(d, AssertionTargetKind, t) <==>
      ReportsKind(c, AssertionTargetKind, t)
      || exists a :: a in rows && Misnames(d, StoredRefs(AssertionTargetKind, rows[a]), t)
  {
    hide Misnames, StoredRefs;
    forall a | a in c.details
      ensures a in d.details && d.details[a] == c.details[a]
    {
      assert a !in rows.Keys;
    }
    forall a | a in rows
      ensures a in d.details && d.details[a] == rows[a]
    {
    }
  }

  lemma RowsAreNew(c: Catalog, d: Catalog, call: Call, eff: Effect, reply: Reply)
    requires Inv(c) && Extends(c, d) && Plan(c, call) == Commit(eff, reply) && Apply(c.core, eff.step).Commit?
    requires d.(keys := c.keys) == Install(c, Apply(c.core, eff.step).state, eff)
    ensures d.details == c.details + eff.rows && eff.rows.Keys !! c.details.Keys
    ensures forall x :: x in c.core.entities ==> x in d.core.entities && d.core.entities[x] == c.core.entities[x]
  {
    hide Inv, Plan, Apply, RowsOk;
    EntitiesMatchDetails(c);
    var e := d.(keys := c.keys);
    assert d.core == e.core && d.details == e.details;
    assert Apply(c.core, eff.step).reply == ();
    CallRowsOk(c, call, eff, reply, d);
  }

  lemma TargetsExist(c: Catalog, a: Id)
    requires Inv(c) && a in c.details
    ensures forall r :: r in StoredRefs(AssertionTargetKind, c.details[a]) ==> r.id in c.core.entities
  {
    assert DetailOk(c, a);
    hide CoreInv, ProducersOk, FindingsOk;
  }

  lemma RelatedTargetsExist(c: Catalog, call: Call)
    requires call.Relate? && Plan(c, call).Commit?
    ensures call.assertion.AssertionRow? && forall r :: r in call.assertion.targets ==> r.id in c.core.entities
  {
    hide Produced;
  }

  lemma SameKinds(c: Catalog, d: Catalog, refs: seq<Ref>, t: Id)
    requires forall r :: r in refs ==> r.id in c.core.entities
    requires forall x :: x in c.core.entities ==> x in d.core.entities && d.core.entities[x] == c.core.entities[x]
    ensures Misnames(d, refs, t) <==> Misnames(c, refs, t)
  {
  }

  // ---- Frozen activities ----

  /** After an activity's first output its inputs never change again. */
  lemma FirstOutputSealsInputs(c: Catalog, requests: seq<Request>, x: Id, e: Edge)
    requires Inv(c) && x in c.core.entities && e.activity == c.core.entities[x].generator
    ensures e in Run(c, requests).core.inputs <==> e in c.core.inputs
  {
    RunKeeps(c, requests);
    hide Run, DetailsOk, FindingsOk;
    assert c.core.activities[e.activity].inputsSealed;
  }

  /** Once an activity is terminal neither its state nor its inputs nor its outputs change. */
  lemma TerminalIsFinal(c: Catalog, requests: seq<Request>, a: Id)
    requires Inv(c) && a in c.core.activities && !c.core.activities[a].state.Running?
    ensures var d := Run(c, requests);
            && a in d.core.activities && d.core.activities[a] == c.core.activities[a]
            && (forall e :: e in d.core.inputs && e.activity == a ==> e in c.core.inputs)
            && (forall x :: x in d.core.outputs && d.core.outputs[x].activity == a ==>
                  x in c.core.outputs && c.core.outputs[x] == d.core.outputs[x])
  {
    RunKeeps(c, requests);
    hide Run, DetailsOk, FindingsOk;
    assert c.core.activities[a].inputsSealed;
  }

  /** An entity is born once: its row, output edge and creation revision are fixed for ever. */
  lemma EntitiesAreImmutable(c: Catalog, requests: seq<Request>, x: Id)
    requires Inv(c) && x in c.core.entities
    ensures var d := Run(c, requests);
            && x in d.core.entities && d.core.entities[x] == c.core.entities[x]
            && x in d.core.outputs && d.core.outputs[x] == c.core.outputs[x]
            && x in d.details && d.details[x] == c.details[x]
  {
    RunKeeps(c, requests);
    hide Run, FindingsOk;
  }

  // ---- Finding histories ----

  /** The revisions of a finding up to version k, oldest first. */
  ghost predicate IsHistory(c: Catalog, f: Id, h: seq<Id>) {
    forall i :: 0 <= i < |h| ==>
      && IsVersion(c, h[i], f, i + 1)
      && c.details[h[i]].predecessor == Before(h, i)
  }

  function Before(h: seq<Id>, i: nat): Option<Id>
    requires i < |h|
  {
    if i == 0 then None else Some(h[i - 1])
  }

  lemma {:induction false} HistoryUpTo(c: Catalog, f: Id, k: nat, id: Id) returns (h: seq<Id>)
    requires RevisionsOk(c) && k >= 1 && IsVersion(c, id, f, k)
    ensures |h| == k && h[k - 1] == id && IsHistory(c, f, h)
  {
    assert RevisionOk(c, id);
    if k == 1 {
      h := [id];
      assert c.details[id].predecessor == None;
    } else {
      var previous := c.details[id].predecessor.value;
      var before := HistoryUpTo(c, f, k - 1, previous);
      h := before + [id];
      HistoryAppend(c, f, before, id);
    }
  }

  lemma HistoryAppend(c: Catalog, f: Id, before: seq<Id>, id: Id)
    requires before != [] && IsHistory(c, f, before)
    requires IsVersion(c, id, f, |before| + 1) && c.details[id].predecessor == Some(before[|before| - 1])
    ensures IsHistory(c, f, before + [id])
  {
    var h := before + [id];
    forall i | 0 <= i < |h|
      ensures IsVersion(c, h[i], f, i + 1) && c.details[h[i]].predecessor == Before(h, i)
    {
      if i < |before| {
        assert h[i] == before[i] && Before(h, i) == Before(before, i);
      }
    }
  }

  /** A finding's versions are exactly 1..n, each revision names the one before it, the
      finding points at the last, and no other revision belongs to it. */
  lemma FindingHistory(c: Catalog, f: Id) returns (h: seq<Id>)
    requires Inv(c) && f in c.findings
    ensures |h| == c.findings[f].version && h[|h| - 1] == c.findings[f].current && IsHistory(c, f, h)
    ensures forall id :: id in c.details && c.details[id].FindingRow? && c.details[id].finding == f ==> id in h
  {
    var n := c.findings[f].version;
    h := HistoryUpTo(c, f, n, c.findings[f].current);
    hide DetailsOk, ProducersOk, CoreInv;
    forall id | id in c.details && c.details[id].FindingRow? && c.details[id].finding == f
      ensures id in h
    {
      assert RevisionOk(c, id);
      var v := c.details[id].version;
      assert IsVersion(c, h[v - 1], f, v) && IsVersion(c, id, f, v);
    }
  }

  /** Later revisions extend a history; they never rewrite it. */
  lemma HistoryOnlyGrows(c: Catalog, requests: seq<Request>, f: Id, h: seq<Id>, g: seq<Id>)
    requires Inv(c) && f in c.findings && |h| == c.findings[f].version && IsHistory(c, f, h)
    requires f in Run(c, requests).findings && |g| == Run(c, requests).findings[f].version && IsHistory(Run(c, requests), f, g)
    ensures h <= g
  {
    hide Run, Inv, Extends;
    RunKeeps(c, requests);
    var d := Run(c, requests);
    VersionsNeverDrop(c, d, f);
    forall i | 0 <= i < |h|
      ensures h[i] == g[i]
    {
      SameVersion(c, d, f, i + 1, h[i], g[i]);
    }
  }

  lemma SameVersion(c: Catalog, d: Catalog, f: Id, v: nat, x: Id, y: Id)
    requires Extends(c, d) && Inv(d) && IsVersion(c, x, f, v) && IsVersion(d, y, f, v)
    ensures x == y
  {
    hide CoreExtends, CoreInv, DetailsOk, ProducersOk, RevisionsOk;
    assert IsVersion(d, x, f, v);
  }

  /** What a revision needs to go through. */
  ghost predicate MayRevise(c: Catalog, r: Request)
    requires r.call.ReviseFinding?
  {
    var call := r.call;
    && KeyUnused(c, r)
    && call.expected.text != "" && call.finding in c.findings && c.findings[call.finding].current == call.expected
    && NoDuplicates(call.members) && (forall m :: m in call.members ==> m.0 in c.core.entities)
    && call.activity !in c.core.activities && call.id !in c.core.entities
  }

  /** While the finding still points at the expected revision, a revision with new identifiers,
      distinct existing members and an unused key commits, as the finding's next version;
      otherwise it does not. */
  lemma RevisionCommitsIff(c: Catalog, r: Request)
    requires Inv(c) && r.call.ReviseFinding?
    ensures Handle(c, r).Commit? <==> MayRevise(c, r)
    ensures MayRevise(c, r) ==>
      var f, d := r.call.finding, Next(c, r);
      f in d.findings && d.findings[f] == Finding(c.findings[f].title, r.call.id, c.findings[f].version + 1)
  {
    hide Inv, Handle, Next, Apply, PlanRevise, NoDuplicates, MayRevise;
    ReviseHandled(c, r);
    RevisionPlanIff(c, r.call);
    if PlanRevise(c, r.call.activity, r.call.who, r.call.finding, r.call.id, r.call.expected, r.call.members).Commit? {
      RevisionStepIff(c, r.call);
    }
    RevisionNeeds(c, r);
  }

  lemma RevisionNeeds(c: Catalog, r: Request)
    requires r.call.ReviseFinding?
    ensures MayRevise(c, r) <==>
      && KeyUnused(c, r)
      && r.call.expected.text != "" && r.call.finding in c.findings && c.findings[r.call.finding].current == r.call.expected
      && NoDuplicates(r.call.members) && (forall m :: m in r.call.members ==> m.0 in c.core.entities)
      && r.call.activity !in c.core.activities && r.call.id !in c.core.entities
  {
    hide NoDuplicates;
  }

  lemma ReviseHandled(c: Catalog, r: Request)
    requires r.call.ReviseFinding?
    ensures var call := r.call;
            var p := PlanRevise(c, call.activity, call.who, call.finding, call.id, call.expected, call.members);
            && (Handle(c, r).Commit? <==>
                  KeyUnused(c, r) && p.Commit? && Apply(c.core, p.state.step).Commit?)
            && (Handle(c, r).Commit? ==> Next(c, r).findings == c.findings + p.state.findings)
  {
    hide Handle, Next, Plan, Apply, PlanRevise, KeyUnused;
    CommittedRequest(c, r);
    ReviseIsPlanned(c, r.call);
  }

  lemma ReviseIsPlanned(c: Catalog, call: Call)
    requires call.ReviseFinding?
    ensures Plan(c, call) == PlanRevise(c, call.activity, call.who, call.finding, call.id, call.expected, call.members)
  {
    hide PlanRevise;
  }

  lemma RevisionPlanIff(c: Catalog, call: Call)
    requires call.ReviseFinding?
    ensures var p := PlanRevise(c, call.activity, call.who, call.finding, call.id, call.expected, call.members);
            && (p.Commit? <==> call.expected.text != "" && call.finding in c.findings
                               && c.findings[call.finding].current == call.expected && NoDuplicates(call.members))
            && (p.Commit? ==>
                  var now := c.findings[call.finding];
                  p.state.findings == map[call.finding := Finding(now.title, call.id, now.version + 1)])
  {
    hide NoDuplicates, Elements, Predecessor, FindingRows, OneShotRows;
  }

  lemma RevisionStepIff(c: Catalog, call: Call)
    requires Inv(c) && call.ReviseFinding?
    requires PlanRevise(c, call.activity, call.who, call.finding, call.id, call.expected, call.members).Commit?
    ensures var p := PlanRevise(c, call.activity, call.who, call.finding, call.id, call.expected, call.members);
            Apply(c.core, p.state.step).Commit? <==>
              call.activity !in c.core.activities && call.id !in c.core.entities
              && forall m :: m in call.members ==> m.0 in c.core.entities
  {
    hide Inv, NoDuplicates;
    CurrentIsAnEntity(c, call.finding);
    var p := PlanRevise(c, call.activity, call.who, call.finding, call.id, call.expected, call.members);
    var uses := Elements(call.members) + Predecessor(call.expected);
    RevisionStep(c, call);
    hide PlanRevise;
    OneShotIff(c.core, call.activity, call.who, uses, p.state.step.births);
    assert (call.expected, "predecessor") in uses;
    NewAlone(call.id, c.core.entities.Keys);
    assert forall m :: m in call.members ==> m in uses;
  }

  lemma RevisionStep(c: Catalog, call: Call)
    requires call.ReviseFinding?
    requires PlanRevise(c, call.activity, call.who, call.finding, call.id, call.expected, call.members).Commit?
    ensures var p := PlanRevise(c, call.activity, call.who, call.finding, call.id, call.expected, call.members);
            && p.state.step.OpOneShot? && p.state.step.activity == call.activity && p.state.step.who == call.who
            && p.state.step.births.Keys == {call.id}
            && p.state.step.uses == Elements(call.members) + Predecessor(call.expected)
  {
    hide Elements, NoDuplicates, Predecessor;
  }

  lemma NewAlone(id: Id, keys: set<Id>)
    ensures {id} * keys == {} <==> id !in keys
  {
    assert id in keys ==> id in {id} * keys;
  }

  lemma OneShotIff(c: Core, a: Id, who: Actor, uses: set<(Id, string)>, births: map<Id, Birth>)
    ensures Apply(c, OpOneShot(a, who, uses, births)).Commit? <==>
      a !in c.activities && births.Keys * c.entities.Keys == {} && forall u :: u in uses ==> u.0 in c.entities
  {
    hide NewEntities, InputEdges, OutputEdges;
  }

  lemma CurrentIsAnEntity(c: Catalog, f: Id)
    requires Inv(c) && f in c.findings
    ensures c.findings[f].current in c.core.entities
  {
    hide DetailOk, CoreInv, ProducersOk;
  }

  /** Of any number of revisers that expect the same revision, with or without keys, exactly
      one appends: once one has, and whatever is served in between, every other is refused,
      unless its own key replays the reply stored under it. */
  lemma OneReviserWins(c: Catalog, first: Request, between: seq<Request>, second: Request)
    requires Inv(c) && first.call.ReviseFinding? && second.call.ReviseFinding?
    requires first.call.finding == second.call.finding && first.call.expected == second.call.expected
    requires MayRevise(c, first)
    ensures Handle(c, first).Commit?
    ensures var e := Run(Next(c, first), between);
            Handle(e, second) == if second.key.key != "" && second.key in e.keys && e.keys[second.key].fingerprint == second.fingerprint
                                 then Replay(e.keys[second.key].reply) else Abort(Conflict)
  {
    hide Inv, Extends, Run, Handle, Next, NoDuplicates;
    var d := Next(c, first);
    var e := Run(d, between);
    var f := first.call.finding;
    RevisionCommitsIff(c, first);
    RequestKeeps(c, first);
    RunKeeps(d, between);
    VersionsNeverDrop(d, e, f);
    ExtendsTransitive(c, d, e);
    CurrentMovedOn(c, e, f);
    LateReviserFails(e, second);
    HandleRefused(e, second);
  }

  lemma VersionsNeverDrop(d: Catalog, e: Catalog, f: Id)
    requires Extends(d, e) && f in d.findings
    ensures f in e.findings && e.findings[f].version >= d.findings[f].version
  {
    hide CoreExtends;
  }

  lemma LateReviserFails(e: Catalog, r: Request)
    requires r.call.ReviseFinding? && r.call.expected.text != "" && r.call.finding in e.findings
    requires e.findings[r.call.finding].current != r.call.expected
    ensures ApplyCall(e, r.call) == Abort(Conflict)
  {
    hide Apply, NoDuplicates, Elements;
  }

  lemma HandleRefused(c: Catalog, r: Request)
    requires ApplyCall(c, r.call) == Abort(Conflict)
    ensures Handle(c, r) == if r.key.key != "" && r.key in c.keys && c.keys[r.key].fingerprint == r.fingerprint
                            then Replay(c.keys[r.key].reply) else Abort(Conflict)
  {
    hide ApplyCall;
  }

  lemma CurrentMovedOn(c: Catalog, e: Catalog, f: Id)
    requires Inv(c) && Inv(e) && f in c.findings && f in e.findings && e.findings[f].version > c.findings[f].version
    requires Extends(c, e)
    ensures e.findings[f].current != c.findings[f].current
  {
    assert IsVersion(c, c.findings[f].current, f, c.findings[f].version);
    assert IsVersion(e, e.findings[f].current, f, e.findings[f].version);
  }

  // ---- Replays ----

  /** A request repeated under its idempotency key, at any later time and with whatever new
      identifiers, returns the first reply and changes nothing; a different request under the
      same key is refused. */
  lemma ReplayRepeatsReply(c: Catalog, r: Request, between: seq<Request>, again: Request)
    requires Inv(c) && r.key.key != "" && again.key == r.key && Handle(c, r).Commit?
    ensures var e := Run(Next(c, r), between);
            && Handle(e, again) == (if again.fingerprint == r.fingerprint then Replay(Handle(c, r).reply) else Abort(Conflict))
            && Next(e, again) == e
  {
    hide Inv, ApplyCall, Run;
    RequestKeeps(c, r);
    var d := Next(c, r);
    assert r.key in d.keys && d.keys[r.key] == KeyRow(r.fingerprint, Handle(c, r).reply);
    RunKeeps(d, between);
    hide CoreExtends;
    var e := Run(d, between);
    assert e.keys[r.key] == d.keys[r.key];
  }

  /** An artifact emitted again under its producer key is the artifact emitted first, even
      after its activity has ended. */
  lemma ProducerKeyRepeatsArtifact(c: Catalog, r: Request, between: seq<Request>, again: Call)
    requires Inv(c) && r.call.EmitArtifact? && r.call.key != ""
    requires again.EmitArtifact? && again.activity == r.call.activity && again.key == r.call.key
    requires again.artifact.ArtifactRow? && r.call.artifact.ArtifactRow?
    requires again.artifact.artifactType != "" && again.artifact.source.text != "" && again.artifact.producedBy == again.activity
    requires Handle(c, r).Commit?
    ensures var e := Run(Next(c, r), between);
            ApplyCall(e, again) == if again.artifact.fingerprint == r.call.artifact.fingerprint
                                   then Replay(Reply([r.call.id], c.core.revision + 1)) else Abort(Conflict)
  {
    var k := ProducerKey(Kind.Artifact, r.call.activity, r.call.key);
    ArtifactIsIndexed(c, r);
    RequestKeeps(c, r);
    var d := Next(c, r);
    RunKeeps(d, between);
    var e := Run(d, between);
    hide Inv, Run, Next, Handle;
    assert e.producers[k] == r.call.id && e.details[r.call.id] == r.call.artifact
           && e.core.entities[r.call.id].created == c.core.revision + 1;
    hide Extends;
    ReplayByProducer(e, again, k, r.call.id);
  }

  lemma ArtifactIsIndexed(c: Catalog, r: Request)
    requires r.call.EmitArtifact? && r.call.key != "" && Handle(c, r).Commit?
    ensures var d := Next(c, r);
            var k := ProducerKey(Kind.Artifact, r.call.activity, r.call.key);
            && k in d.producers && d.producers[k] == r.call.id
            && r.call.id in d.details && d.details[r.call.id] == r.call.artifact
            && r.call.id in d.core.entities && d.core.entities[r.call.id].created == c.core.revision + 1
  {
    hide Handle, Next, Plan, Apply, PlanArtifact, KeyUnused;
    CommittedRequest(c, r);
    var call := r.call;
    var plan := PlanArtifact(c, call.activity, call.id, call.schema, call.key, call.artifact);
    ArtifactPlan(c, call);
    ArtifactIsPlanned(c, call);
    EmitResult(c.core, call.activity, call.id, plan.state.step.birth);
  }

  lemma ArtifactPlan(c: Catalog, call: Call)
    requires call.EmitArtifact? && call.key != ""
    ensures var p := PlanArtifact(c, call.activity, call.id, call.schema, call.key, call.artifact);
            p.Commit? ==>
              && p.state.step == OpEmit(call.activity, call.id, Birth(Kind.Artifact, call.schema, "", "artifact"))
              && p.state.rows == map[call.id := call.artifact]
              && p.state.producers == map[ProducerKey(Kind.Artifact, call.activity, call.key) := call.id]
  {
    hide Produced, Uses, IsObject;
  }

  lemma ArtifactIsPlanned(c: Catalog, call: Call)
    requires call.EmitArtifact?
    ensures Plan(c, call) == PlanArtifact(c, call.activity, call.id, call.schema, call.key, call.artifact)
  {
    hide PlanArtifact;
  }

  lemma EmitResult(c: Core, a: Id, id: Id, b: Birth)
    requires Apply(c, OpEmit(a, id, b)).Commit?
    ensures var d := Apply(c, OpEmit(a, id, b)).state;
            id in d.entities && d.entities[id].created == c.revision + 1
  {
  }

  lemma ReplayByProducer(e: Catalog, again: Call, k: ProducerKey, id: Id)
    requires again.EmitArtifact? && k == ProducerKey(Kind.Artifact, again.activity, again.key) && k.key != ""
    requires again.artifact.ArtifactRow? && again.artifact.artifactType != "" && again.artifact.source.text != ""
    requires again.artifact.producedBy == again.activity
    requires k in e.producers && e.producers[k] == id && id in e.details && e.details[id].ArtifactRow? && id in e.core.entities
    ensures ApplyCall(e, again) == if again.artifact.fingerprint == e.details[id].fingerprint
                                   then Replay(Reply([id], e.core.entities[id].created)) else Abort(Conflict)
  {
    hide Uses, IsObject, Apply;
  }
}
