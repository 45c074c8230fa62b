/** The case catalog: the provenance core together with the typed rows of its entities,
    findings, producer keys, parser cache and idempotency keys. Each request is one
    `mutate` transaction. */
module Catalog {
  import opened Common
  import opened Order
  import opened Provenance

  /** A normalised time value; instants are integers. */
  datatype Temporal = Temporal(start: Option<int>, end: Option<int>, role: string)

  datatype EntryKind = File | Directory | Symlink

  /** A row of tree_entries; only files carry a digest and an object. */
  datatype TreeEntry = TreeEntry(path: string, kind: EntryKind, size: nat, digest: string, objectId: Id)

  datatype EvidenceRole = Root | TreeFile

  /** The typed row that shares its primary key with an entity. Rows of dependent tables that
      are written in the same transaction and never again are kept inside it. */
  datatype Detail =
    | ObjectRow(digest: string, size: nat, path: string)
    | ArtifactRow(artifactType: string, source: Id, fingerprint: string, producedBy: Id,
                  values: map<string, seq<string>>, times: map<string, seq<Temporal>>)
    | AssertionRow(assertionType: string, fingerprint: string, producedBy: Id, targets: seq<Ref>)
    | EvidenceRow(objects: map<Id, EvidenceRole>)
    | TreeRow(evidence: Id, manifest: Id, entries: seq<TreeEntry>)
    | FindingRow(finding: Id, version: nat, predecessor: Option<Id>, members: set<(Id, string)>)
    | SelectionRow(observed: nat, selected: seq<Ref>)
    | ProjectionRow(selection: Id, included: seq<Ref>, excluded: seq<Ref>)
    | DeliverableRow

  datatype Finding = Finding(title: string, current: Id, version: nat)
  datatype CacheRow = CacheRow(source: Id, outputs: seq<Id>)
  datatype Reply = Reply(ids: seq<Id>, revision: nat)
  datatype KeyRow = KeyRow(fingerprint: string, reply: Reply)

  /** The unique index on (generating activity, producer key) of artifacts and of assertions. */
  datatype ProducerKey = ProducerKey(kind: Kind, activity: Id, key: string)

  datatype IdempotencyKey = IdempotencyKey(scope: string, operation: string, key: string)

  datatype Catalog = Catalog(
    core: Core, details: map<Id, Detail>, producers: map<ProducerKey, Id>,
    findings: map<Id, Finding>, cache: map<string, CacheRow>, keys: map<IdempotencyKey, KeyRow>)

  function NewCase(who: Actor, activity: Id): Catalog {
    Catalog(Genesis(who, activity), map[], map[], map[], map[], map[])
  }

  // ---- Requests ----

  datatype NewRow = NewRow(birth: Birth, detail: Detail)
  datatype Hit = Hit(objectId: Id, fingerprint: string)

  datatype Call =
    | TouchCase
    | BeginActivity(activity: Id, who: Actor)
    | UseInput(activity: Id, entity: Id, role: string)
    | SealActivity(activity: Id)
    | Capture(activity: Id, id: Id, birth: Birth, digest: string, size: nat, path: string)
    | EmitArtifact(activity: Id, id: Id, schema: string, key: string, artifact: Detail)
    | Relate(activity: Id, id: Id, key: string, assertion: Detail)
    | FinishActivity(activity: Id, state: ActivityState)
    | MarkInterrupted(ids: set<Id>)
    | ImportEvidence(activity: Id, who: Actor, evidence: Id, objectId: Id, digest: string, size: nat, path: string)
    | ImportTree(activity: Id, who: Actor, evidence: Id, tree: Id, manifest: Id, digest: string, size: nat,
                 entries: seq<TreeEntry>)
    | Freeze(activity: Id, who: Actor, selection: Id, observed: nat, picked: seq<Id>)
    | CreateProjection(activity: Id, who: Actor, projection: Id, selection: Id, picked: seq<Id>, excluded: seq<Id>)
    | SaveSearch(activity: Id, who: Actor, selection: Id, source: Id, hits: map<Id, Hit>, order: seq<Id>)
    | Publish(activity: Id, who: Actor, uses: set<(Id, string)>, rows: map<Id, NewRow>)
    | AuthorFinding(activity: Id, who: Actor, finding: Id, id: Id, title: string, members: seq<(Id, string)>)
    | ReviseFinding(activity: Id, who: Actor, finding: Id, id: Id, expected: Id, members: seq<(Id, string)>)
    | StoreCache(key: string, source: Id, outputs: seq<Id>)

  datatype Request = Request(key: IdempotencyKey, fingerprint: string, call: Call)

  /** The rows a transaction adds. */
  datatype Effect = Effect(
    step: CoreOp, rows: map<Id, Detail>, producers: map<ProducerKey, Id>,
    findings: map<Id, Finding>, cache: map<string, CacheRow>)

  function Rows(step: CoreOp, rows: map<Id, Detail>): Effect {
    Effect(step, rows, map[], map[], map[])
  }

  predicate NoDuplicates<T(==)>(s: seq<T>) {
    forall i, j :: 0 <= i < j < |s| ==> s[i] != s[j]
  }

  predicate AllExist(c: Catalog, ids: seq<Id>) {
    forall id :: id in ids ==> id in c.core.entities
  }

  function RefOf(c: Catalog, id: Id): Ref
    requires id in c.core.entities
  {
    Ref(c.core.entities[id].kind, id)
  }

  function RefsOf(c: Catalog, ids: seq<Id>): (r: seq<Ref>)
    requires AllExist(c, ids)
  {
    seq(|ids|, i requires 0 <= i < |ids| => RefOf(c, ids[i]))
  }

  predicate IsObject(c: Catalog, id: Id) {
    id in c.details && c.details[id].ObjectRow?
  }

  predicate Running(c: Catalog, a: Id) {
    a in c.core.activities && c.core.activities[a].state.Running?
  }

  predicate Uses(c: Catalog, a: Id, e: Id) {
    exists i :: i in c.core.inputs && i.activity == a && i.entity == e
  }

  /** A producer key seen before: the same fingerprint returns the first output. */
  function Produced(c: Catalog, k: ProducerKey, fingerprint: string): Tx<(), Reply> {
    if k.key == "" || k !in c.producers then Commit((), Reply([], 0))
    else
      var id := c.producers[k];
      if id in c.details && id in c.core.entities
         && (c.details[id].ArtifactRow? || c.details[id].AssertionRow?) && c.details[id].fingerprint == fingerprint
      then Replay(Reply([id], c.core.entities[id].created))
      else Abort(Conflict)
  }

  function OneProducer(k: ProducerKey, id: Id): map<ProducerKey, Id> {
    if k.key == "" then map[] else map[k := id]
  }

  function BirthsOf(rows: map<Id, NewRow>): map<Id, Birth> {
    map id | id in rows :: rows[id].birth
  }

  function DetailsOf(rows: map<Id, NewRow>): map<Id, Detail> {
    map id | id in rows :: rows[id].detail
  }

  function OneShotRows(a: Id, who: Actor, uses: set<(Id, string)>, rows: map<Id, NewRow>): Effect {
    Rows(OpOneShot(a, who, uses, BirthsOf(rows)), DetailsOf(rows))
  }

  function PlanArtifact(c: Catalog, a: Id, id: Id, schema: string, key: string, artifact: Detail): Tx<Effect, Reply> {
    if !artifact.ArtifactRow? || artifact.artifactType == "" || artifact.source.text == "" || artifact.producedBy != a
    then Abort(Invalid)
    else
      var k := ProducerKey(Kind.Artifact, a, key);
      match Produced(c, k, artifact.fingerprint)
      case Replay(r) => Replay(r)
      case Abort(e) => Abort(e)
      case Commit(_, _) =>
        if a !in c.core.activities then Abort(NotFound)
        else if !Running(c, a) then Abort(Conflict)
        else if !Uses(c, a, artifact.source) then Abort(Invalid)
        else if !IsObject(c, artifact.source) then Abort(Conflict)
        else Commit(Effect(OpEmit(a, id, Birth(Kind.Artifact, schema, "", "artifact")), map[id := artifact],
                           OneProducer(k, id), map[], map[]), Reply([id], 0))
  }

  function PlanAssertion(c: Catalog, a: Id, id: Id, key: string, assertion: Detail): Tx<Effect, Reply> {
    if !assertion.AssertionRow? || assertion.assertionType == "" || assertion.targets == [] || assertion.producedBy != a
    then Abort(Invalid)
    else
      var k := ProducerKey(Kind.Assertion, a, key);
      match Produced(c, k, assertion.fingerprint)
      case Replay(r) => Replay(r)
      case Abort(e) => Abort(e)
      case Commit(_, _) =>
        if a !in c.core.activities then Abort(NotFound)
        else if !Running(c, a) then Abort(Conflict)
        else if exists t :: t in assertion.targets && t.id !in c.core.entities then Abort(Conflict)
        else Commit(Effect(OpEmit(a, id, Birth(Kind.Assertion, "", "", "assertion")), map[id := assertion],
                           OneProducer(k, id), map[], map[]), Reply([id], 0))
  }

  function FileIds(entries: seq<TreeEntry>): set<Id> {
    set e | e in entries && e.kind.File? :: e.objectId
  }

  /** The first entry that names a file object. */
  function FileOf(entries: seq<TreeEntry>, id: Id): (e: TreeEntry)
    requires id in FileIds(entries)
    ensures e in entries && e.kind.File? && e.objectId == id
  {
    if entries[0].kind.File? && entries[0].objectId == id then entries[0]
    else
      assert forall e :: e in entries && e != entries[0] ==> e in entries[1..];
      FileOf(entries[1..], id)
  }

  /** Each file of the tree has an object of its own. */
  predicate DistinctFiles(entries: seq<TreeEntry>) {
    forall i, j :: 0 <= i < j < |entries| && entries[i].kind.File? && entries[j].kind.File? ==>
      entries[i].objectId != entries[j].objectId
  }

  function FileRows(entries: seq<TreeEntry>): map<Id, NewRow> {
    map id | id in FileIds(entries) ::
      var e := FileOf(entries, id);
      NewRow(Birth(Kind.Object, "", "", "tree-file"), ObjectRow(e.digest, e.size, e.path))
  }

  function EvidenceRows(evidence: Id, objectId: Id, digest: string, size: nat, path: string): map<Id, NewRow> {
    map[evidence := NewRow(Birth(Kind.Evidence, "", "", "evidence"), EvidenceRow(map[objectId := Root])),
        objectId := NewRow(Birth(Kind.Object, "", "", "original"), ObjectRow(digest, size, path))]
  }

  function JsonMedia(): string {
    "application/json"
  }

  function TreeManifestPath(): string {
    "source-tree-manifest.json"
  }

  function TreeRows(evidence: Id, tree: Id, manifest: Id, digest: string, size: nat, entries: seq<TreeEntry>):
      map<Id, NewRow>
  {
    var files := FileRows(entries);
    files +
    map[evidence := NewRow(Birth(Kind.Evidence, "", "", "evidence"),
                           EvidenceRow((map id | id in files :: TreeFile) + map[manifest := Root])),
        tree := NewRow(Birth(SourceTree, "", "", "source-tree"), TreeRow(evidence, manifest, entries)),
        manifest := NewRow(Birth(Kind.Object, "", JsonMedia(), "tree-manifest"),
                           ObjectRow(digest, size, TreeManifestPath()))]
  }

  function PlanTree(a: Id, who: Actor, evidence: Id, tree: Id, manifest: Id, digest: string, size: nat,
                    entries: seq<TreeEntry>): Tx<Effect, Reply>
  {
    if evidence == tree || evidence == manifest || tree == manifest
       || {evidence, tree, manifest} * FileIds(entries) != {} || !DistinctFiles(entries)
    then Abort(Conflict)
    else Commit(OneShotRows(a, who, {}, TreeRows(evidence, tree, manifest, digest, size, entries)),
                Reply([tree, evidence, manifest], 0))
  }

  function PlanFreeze(c: Catalog, a: Id, who: Actor, selection: Id, observed: nat, members: seq<Id>): Tx<Effect, Reply> {
    if !AllExist(c, members) || !NoDuplicates(members) then Abort(Conflict)
    else Commit(OneShotRows(a, who, set m | m in members :: (m, "member"),
                            map[selection := NewRow(Birth(Kind.Selection, "", "", "selection"),
                                                    SelectionRow(observed, RefsOf(c, members)))]),
                Reply([selection], 0))
  }

  function PlanProjection(c: Catalog, a: Id, who: Actor, projection: Id, selection: Id, members: seq<Id>,
                          excluded: seq<Id>): Tx<Effect, Reply>
  {
    if selection !in c.details || !c.details[selection].SelectionRow? then Abort(NotFound)
    else if !AllExist(c, members) || !AllExist(c, excluded) || !NoDuplicates(members) || !NoDuplicates(excluded)
    then Abort(Conflict)
    else Commit(OneShotRows(a, who, {(selection, "selection")},
                            map[projection := NewRow(Birth(Kind.Projection, "", "", "projection"),
                                                     ProjectionRow(selection, RefsOf(c, members), RefsOf(c, excluded)))]),
                Reply([projection], 0))
  }

  /** Hits are new artifacts, so their references are known before they are inserted. */
  function HitRefs(order: seq<Id>): seq<Ref> {
    seq(|order|, i requires 0 <= i < |order| => Ref(Kind.Artifact, order[i]))
  }

  function HitSchema(): string {
    "urn:forensic:artifact:byte-search-hit/v1"
  }

  function HitRows(a: Id, hits: map<Id, Hit>): map<Id, NewRow> {
    map id | id in hits ::
      NewRow(Birth(Kind.Artifact, HitSchema(), "", "search-hit"),
             ArtifactRow(HitSchema(), hits[id].objectId, hits[id].fingerprint, a, map[], map[]))
  }

  function SearchUses(source: Id, hits: map<Id, Hit>): set<(Id, string)> {
    {(source, "source-selection")} + (set id | id in hits :: (hits[id].objectId, "searched-object"))
  }

  function SearchRows(a: Id, selection: Id, hits: map<Id, Hit>, order: seq<Id>, rev: nat): map<Id, NewRow> {
    HitRows(a, hits) +
    map[selection := NewRow(Birth(Kind.Selection, "", "", "hit-selection"), SelectionRow(rev, HitRefs(order)))]
  }

  function PlanSearch(c: Catalog, a: Id, who: Actor, selection: Id, source: Id, hits: map<Id, Hit>, order: seq<Id>):
      Tx<Effect, Reply>
  {
    if source !in c.details || !c.details[source].SelectionRow? then Abort(NotFound)
    else if selection in hits || Elements(order) != hits.Keys || !NoDuplicates(order)
            || exists id :: id in hits && !IsObject(c, hits[id].objectId)
    then Abort(Conflict)
    else Commit(OneShotRows(a, who, SearchUses(source, hits), SearchRows(a, selection, hits, order, c.core.revision + 1)),
                Reply([a, selection], 0))
  }

  /** Materializations, packages and snapshots add a manifest object and perhaps a deliverable;
      a custody transfer adds no entity. */
  function PlanPublish(a: Id, who: Actor, uses: set<(Id, string)>, rows: map<Id, NewRow>): Tx<Effect, Reply> {
    if exists id :: id in rows && !(rows[id].detail.ObjectRow? && rows[id].birth.kind == Kind.Manifest)
                               && !(rows[id].detail.DeliverableRow? && rows[id].birth.kind == Kind.Deliverable)
    then Abort(Invalid)
    else Commit(OneShotRows(a, who, uses, rows), Reply([a], 0))
  }

  function FindingRows(id: Id, row: Detail): map<Id, NewRow> {
    map[id := NewRow(Birth(FindingRevision, "", "", "finding-revision"), row)]
  }

  function Predecessor(id: Id): set<(Id, string)> {
    {(id, "predecessor")}
  }

  function PlanAuthor(c: Catalog, a: Id, who: Actor, f: Id, id: Id, title: string, members: seq<(Id, string)>):
      Tx<Effect, Reply>
  {
    if title == "" then Abort(Invalid)
    else if f in c.findings || !NoDuplicates(members) then Abort(Conflict)
    else
      var row := FindingRow(f, 1, None, Elements(members));
      Commit(OneShotRows(a, who, Elements(members), FindingRows(id, row))
               .(findings := map[f := Finding(title, id, 1)]),
             Reply([f, id], 0))
  }

  function PlanRevise(c: Catalog, a: Id, who: Actor, f: Id, id: Id, expected: Id, members: seq<(Id, string)>):
      Tx<Effect, Reply>
  {
    if expected.text == "" then Abort(Invalid)
    else if f !in c.findings then Abort(NotFound)
    else if c.findings[f].current != expected || !NoDuplicates(members) then Abort(Conflict)
    else
      var now := c.findings[f];
      var row := FindingRow(f, now.version + 1, Some(now.current), Elements(members));
      Commit(OneShotRows(a, who, Elements(members) + Predecessor(now.current), FindingRows(id, row))
               .(findings := map[f := Finding(now.title, id, now.version + 1)]),
             Reply([f, id], 0))
  }

  function PlanCache(c: Catalog, key: string, source: Id, outputs: seq<Id>): Tx<Effect, Reply> {
    if key in c.cache then Replay(Reply([c.cache[key].source], c.core.revision))
    else if source !in c.core.activities || !AllExist(c, outputs) || !NoDuplicates(outputs)
    then Abort(Conflict)
    else Commit(Effect(OpTouch, map[], map[], map[], map[key := CacheRow(source, outputs)]), Reply([source], 0))
  }

  function Plan(c: Catalog, call: Call): Tx<Effect, Reply> {
    match call
    case TouchCase => Commit(Rows(OpTouch, map[]), Reply([], 0))
    case BeginActivity(a, who) => Commit(Rows(OpBegin(a, who), map[]), Reply([a], 0))
    case UseInput(a, e, role) =>
      if e.text == "" || role == "" then Abort(Invalid) else Commit(Rows(OpUse(a, e, role), map[]), Reply([a, e], 0))
    case SealActivity(a) => Commit(Rows(OpSeal(a), map[]), Reply([a], 0))
    case Capture(a, id, b, digest, size, path) =>
      if b.kind != Kind.Object then Abort(Invalid)
      else Commit(Rows(OpEmit(a, id, b), map[id := ObjectRow(digest, size, path)]), Reply([id], 0))
    case EmitArtifact(a, id, schema, key, artifact) => PlanArtifact(c, a, id, schema, key, artifact)
    case Relate(a, id, key, assertion) => PlanAssertion(c, a, id, key, assertion)
    case FinishActivity(a, state) => Commit(Rows(OpFinish(a, state), map[]), Reply([a], 0))
    case MarkInterrupted(ids) => Commit(Rows(OpInterrupt(ids), map[]), Reply([], 0))
    case ImportEvidence(a, who, e, o, digest, size, path) =>
      if e == o then Abort(Conflict)
      else Commit(OneShotRows(a, who, {}, EvidenceRows(e, o, digest, size, path)), Reply([e, o], 0))
    case ImportTree(a, who, e, t, m, digest, size, entries) => PlanTree(a, who, e, t, m, digest, size, entries)
    case Freeze(a, who, s, observed, members) => PlanFreeze(c, a, who, s, observed, members)
    case CreateProjection(a, who, p, s, members, excluded) => PlanProjection(c, a, who, p, s, members, excluded)
    case SaveSearch(a, who, s, source, hits, order) => PlanSearch(c, a, who, s, source, hits, order)
    case Publish(a, who, uses, rows) => PlanPublish(a, who, uses, rows)
    case AuthorFinding(a, who, f, id, title, members) => PlanAuthor(c, a, who, f, id, title, members)
    case ReviseFinding(a, who, f, id, expected, members) => PlanRevise(c, a, who, f, id, expected, members)
    case StoreCache(key, source, outputs) => PlanCache(c, key, source, outputs)
  }

  function Install(c: Catalog, core: Core, eff: Effect): Catalog {
    Catalog(core, c.details + eff.rows, c.producers + eff.producers, c.findings + eff.findings,
            c.cache + eff.cache, c.keys)
  }

  /** One transaction body: plan the rows, then insert them over the provenance step. */
  function ApplyCall(c: Catalog, call: Call): Tx<Catalog, Reply> {
    match Plan(c, call)
    case Abort(e) => Abort(e)
    case Replay(r) => Replay(r)
    case Commit(eff, reply) =>
      match Apply(c.core, eff.step)
      case Abort(e) => Abort(e)
      case Replay(_) => Replay(reply.(revision := c.core.revision))
      case Commit(core, _) => Commit(Install(c, core, eff), reply.(revision := core.revision))
  }

  /** A request under an idempotency key: look the key up, run the body, store the reply. */
  function Handle(c: Catalog, r: Request): Tx<Catalog, Reply> {
    if r.key.key != "" && r.key in c.keys then
      if c.keys[r.key].fingerprint == r.fingerprint then Replay(c.keys[r.key].reply) else Abort(Conflict)
    else
      match ApplyCall(c, r.call)
      case Commit(d, reply) =>
        Commit(if r.key.key == "" then d else d.(keys := d.keys[r.key := KeyRow(r.fingerprint, reply)]), reply)
      case other => other
  }

  /** The catalog after a request: only a commit changes it. */
  function Next(c: Catalog, r: Request): Catalog {
    match Handle(c, r)
    case Commit(d, _) => d
    case _ => c
  }

  function Run(c: Catalog, requests: seq<Request>): Catalog
    decreases |requests|
  {
    if requests == [] then c else Run(Next(c, requests[0]), requests[1..])
  }
}
