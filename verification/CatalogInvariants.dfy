/** What every reachable case catalog satisfies, and what every later one keeps. */
module CatalogInvariants {
  import opened Common
  import opened Order
  import opened Provenance
  import opened Catalog

  ghost predicate KindMatches(kind: Kind, d: Detail) {
    match d
    case ObjectRow(_, _, _) => kind == Kind.Object || kind == Kind.Manifest
    case ArtifactRow(_, _, _, _, _, _) => kind == Kind.Artifact
    case AssertionRow(_, _, _, _) => kind == Kind.Assertion
    case EvidenceRow(_) => kind == Kind.Evidence
    case TreeRow(_, _, _) => kind == SourceTree
    case FindingRow(_, _, _, _) => kind == FindingRevision
    case SelectionRow(_, _) => kind == Kind.Selection
    case ProjectionRow(_, _, _) => kind == Kind.Projection
    case DeliverableRow => kind == Kind.Deliverable
  }

  /** A stored reference names an entity by its authoritative kind. */
  ghost predicate RefsValid(c: Catalog, refs: seq<Ref>) {
    forall r :: r in refs ==> r.id in c.core.entities && c.core.entities[r.id].kind == r.kind
  }

  /** x is an object born in the same transaction as y. */
  ghost predicate BornTogether(c: Catalog, x: Id, y: Id) {
    && IsObject(c, x) && x in c.core.entities && y in c.core.entities
    && c.core.entities[x].generator == c.core.entities[y].generator
    && c.core.entities[x].created == c.core.entities[y].created
  }

  ghost predicate OneRoot(objects: map<Id, EvidenceRole>) {
    exists r :: IsRoot(objects, r)
  }

  ghost predicate IsRoot(objects: map<Id, EvidenceRole>, r: Id) {
    r in objects && forall o :: o in objects ==> (objects[o] == Root <==> o == r)
  }

  /** A tree's manifest is the root object of its evidence, and each file entry has the
      object, digest and size of an object of that evidence. */
  ghost predicate TreeOk(c: Catalog, id: Id, evidence: Id, manifest: Id, entries: seq<TreeEntry>) {
    && id in c.core.entities
    && BornTogether(c, manifest, id)
    && evidence in c.details && c.details[evidence].EvidenceRow?
    && manifest in c.details[evidence].objects && c.details[evidence].objects[manifest] == Root
    && forall e :: e in entries && e.kind.File? ==>
         && BornTogether(c, e.objectId, id)
         && c.details[e.objectId].digest == e.digest && c.details[e.objectId].size == e.size
         && e.objectId in c.details[evidence].objects
  }

  /** The semantic checks of `Verify` for one entity. */
  ghost predicate DetailOk(c: Catalog, id: Id)
    requires id in c.details && id in c.core.entities
  {
    && KindMatches(c.core.entities[id].kind, c.details[id])
    && match c.details[id]
       case ArtifactRow(_, source, _, producedBy, _, _) =>
         producedBy == c.core.entities[id].generator && Uses(c, producedBy, source) && IsObject(c, source)
       case AssertionRow(_, _, producedBy, targets) =>
         producedBy == c.core.entities[id].generator && forall t :: t in targets ==> t.id in c.core.entities
       case EvidenceRow(objects) => OneRoot(objects) && forall o :: o in objects ==> BornTogether(c, o, id)
       case TreeRow(evidence, manifest, entries) => TreeOk(c, id, evidence, manifest, entries)
       case FindingRow(_, _, _, members) =>
         forall m :: m in members ==> Edge(c.core.entities[id].generator, m.0, m.1) in c.core.inputs
       case SelectionRow(_, selected) => RefsValid(c, selected) && NoDuplicates(selected)
       case ProjectionRow(_, included, excluded) => RefsValid(c, included) && RefsValid(c, excluded)
       case _ => true
  }

  ghost predicate DetailsOk(c: Catalog) {
    && c.details.Keys == c.core.entities.Keys
    && forall id {:trigger DetailOk(c, id)} :: id in c.details ==> DetailOk(c, id)
  }

  ghost predicate ProducersOk(c: Catalog) {
    forall k :: k in c.producers ==>
      && k.key != "" && c.producers[k] in c.details && c.producers[k] in c.core.entities
      && (c.details[c.producers[k]].ArtifactRow? || c.details[c.producers[k]].AssertionRow?)
      && c.core.entities[c.producers[k]].generator == k.activity
  }

  ghost predicate IsVersion(c: Catalog, id: Id, f: Id, version: nat) {
    id in c.details && c.details[id].FindingRow? && c.details[id].finding == f && c.details[id].version == version
  }

  /** Each finding's revisions form one chain that ends at its current revision. */
  ghost predicate FindingsOk(c: Catalog) {
    CurrentIsLast(c) && RevisionsOk(c) && VersionsUnique(c)
  }

  ghost predicate CurrentIsLast(c: Catalog) {
    forall f :: f in c.findings ==>
      c.findings[f].version >= 1 && IsVersion(c, c.findings[f].current, f, c.findings[f].version)
  }

  ghost predicate RevisionsOk(c: Catalog) {
    forall id {:trigger RevisionOk(c, id)} :: id in c.details && c.details[id].FindingRow? ==> RevisionOk(c, id)
  }

  ghost predicate VersionsUnique(c: Catalog) {
    forall x, y, f, v :: IsVersion(c, x, f, v) && IsVersion(c, y, f, v) ==> x == y
  }

  ghost predicate RevisionOk(c: Catalog, id: Id)
    requires id in c.details && c.details[id].FindingRow?
  {
    var d := c.details[id];
    && d.finding in c.findings && 1 <= d.version <= c.findings[d.finding].version
    && (d.predecessor.None? <==> d.version == 1)
    && (d.predecessor.Some? ==> IsVersion(c, d.predecessor.value, d.finding, d.version - 1))
  }

  ghost predicate Inv(c: Catalog) {
    CoreInv(c.core) && DetailsOk(c) && ProducersOk(c) && FindingsOk(c)
  }

  /** What every later catalog of a case keeps. */
  ghost predicate Extends(c: Catalog, d: Catalog) {
    && CoreExtends(c.core, d.core)
    && (forall id :: id in c.details ==> id in d.details && d.details[id] == c.details[id])
    && (forall id :: id in d.details && id !in c.details ==> id !in c.core.entities)
    && (forall k :: k in c.producers ==> k in d.producers && d.producers[k] == c.producers[k])
    && (forall k :: k in c.cache ==> k in d.cache && d.cache[k] == c.cache[k])
    && (forall k :: k in c.keys ==> k in d.keys && d.keys[k] == c.keys[k])
    && (forall f :: f in c.findings ==>
          && f in d.findings && c.findings[f].version <= d.findings[f].version
          && (c.findings[f].version == d.findings[f].version ==> d.findings[f] == c.findings[f]))
  }

  lemma NewCaseInv(who: Actor, a: Id)
    ensures Inv(NewCase(who, a))
  {
    GenesisInv(who, a);
  }

  lemma ExtendsReflexive(c: Catalog)
    ensures Extends(c, c)
  {
  }

  lemma ExtendsTransitive(c: Catalog, d: Catalog, e: Catalog)
    requires Extends(c, d) && Extends(d, e)
    ensures Extends(c, e)
  {
    CoreExtendsTransitive(c.core, d.core, e.core);
    forall id | id in e.details && id !in c.details
      ensures id !in c.core.entities
    {
      if id !in d.details {
        assert id !in d.core.entities;
      }
    }
  }

  // ---- The frame of a transaction ----

  ghost predicate RowsOk(d: Catalog, ids: set<Id>) {
    ids <= d.details.Keys && ids <= d.core.entities.Keys
    && forall id {:trigger DetailOk(d, id)} :: id in ids ==> DetailOk(d, id)
  }

  /** What the rows of an effect must satisfy once they are in place. */
  ghost predicate EffectFits(c: Catalog, eff: Effect, d: Catalog) {
    && eff.rows.Keys == d.core.entities.Keys - c.core.entities.Keys
    && RowsOk(d, eff.rows.Keys)
    && (forall k :: k in eff.producers ==>
          && k !in c.producers && k.key != "" && eff.producers[k] in eff.rows
          && (eff.rows[eff.producers[k]].ArtifactRow? || eff.rows[eff.producers[k]].AssertionRow?)
          && d.core.entities[eff.producers[k]].generator == k.activity)
    && (forall k :: k in eff.cache ==> k !in c.cache)
  }

  lemma DetailStaysOk(c: Catalog, d: Catalog, id: Id)
    requires CoreExtends(c.core, d.core)
    requires forall x :: x in c.details ==> x in d.details && d.details[x] == c.details[x]
    requires id in c.details && id in c.core.entities && DetailOk(c, id)
    ensures DetailOk(d, id)
  {
    match c.details[id] {
      case ArtifactRow(_, source, _, producedBy, _, _) =>
        var i :| i in c.core.inputs && i.activity == producedBy && i.entity == source;
        assert i in d.core.inputs;
      case TreeRow(evidence, manifest, entries) =>
        assert TreeOk(d, id, evidence, manifest, entries);
      case _ =>
    }
  }

  lemma InstalledDetails(c: Catalog, eff: Effect, core: Core)
    requires Inv(c) && Apply(c.core, eff.step) == Commit(core, ())
    requires EffectFits(c, eff, Install(c, core, eff))
    ensures DetailsOk(Install(c, core, eff))
  {
    hide Apply, DetailOk, CoreInv, CoreExtends, FindingsOk, ProducersOk;
    var d := Install(c, core, eff);
    ApplyExtends(c.core, eff.step);
    EntitiesNeverShrink(c.core, core, eff.step);
    assert d.details.Keys == d.core.entities.Keys;
    forall id | id in d.details
      ensures DetailOk(d, id)
    {
      if id !in eff.rows {
        DetailStaysOk(c, d, id);
      }
    }
  }

  /** Rows that name no finding leave the finding chains alone. */
  lemma FindingsStayOk(c: Catalog, eff: Effect, core: Core)
    requires FindingsOk(c) && eff.findings == map[]
    requires forall id :: id in eff.rows ==> !eff.rows[id].FindingRow? && id !in c.details
    ensures FindingsOk(Install(c, core, eff))
  {
    var d := Install(c, core, eff);
    forall x, f, v: nat
      ensures IsVersion(d, x, f, v) <==> IsVersion(c, x, f, v)
    {
    }
    forall id | id in d.details && d.details[id].FindingRow?
      ensures id in c.details && d.details[id] == c.details[id]
    {
    }
    SameFindings(c, d);
  }

  lemma SameFindings(c: Catalog, d: Catalog)
    requires FindingsOk(c) && d.findings == c.findings
    requires forall x, f, v: nat :: IsVersion(d, x, f, v) <==> IsVersion(c, x, f, v)
    requires forall id :: id in d.details && d.details[id].FindingRow? ==> id in c.details && d.details[id] == c.details[id]
    ensures FindingsOk(d)
  {
    hide IsVersion;
    forall id | id in d.details && d.details[id].FindingRow?
      ensures RevisionOk(d, id)
    {
      assert RevisionOk(c, id);
    }
  }

  lemma EntitiesNeverShrink(c: Core, d: Core, step: CoreOp)
    requires CoreInv(c) && Apply(c, step) == Commit(d, ())
    ensures c.entities.Keys <= d.entities.Keys
  {
    hide Apply;
    ApplyExtends(c, step);
  }

  lemma ExtendsByInstall(c: Catalog, eff: Effect, core: Core)
    requires Inv(c) && Apply(c.core, eff.step) == Commit(core, ())
    requires EffectFits(c, eff, Install(c, core, eff))
    requires forall f :: f in eff.findings && f in c.findings ==> eff.findings[f].version > c.findings[f].version
    ensures Extends(c, Install(c, core, eff))
  {
    hide Apply, DetailOk, CoreExtends, CoreInv;
    EntitiesNeverShrink(c.core, core, eff.step);
    ApplyExtends(c.core, eff.step);
  }

  lemma InstalledProducers(c: Catalog, eff: Effect, core: Core)
    requires Inv(c) && Apply(c.core, eff.step) == Commit(core, ())
    requires EffectFits(c, eff, Install(c, core, eff))
    ensures ProducersOk(Install(c, core, eff))
  {
    hide Apply, DetailOk, CoreInv, FindingsOk, ActivitiesKept, EdgesKept, RowsOk;
    ApplyExtends(c.core, eff.step);
    OldRowsStay(c, eff, core);
    hide CoreExtends;
  }

  /** New rows belong to new entities, so no old row is overwritten. */
  lemma OldRowsStay(c: Catalog, eff: Effect, core: Core)
    requires c.details.Keys == c.core.entities.Keys && eff.rows.Keys == core.entities.Keys - c.core.entities.Keys
    ensures forall id :: id in c.details ==> id in Install(c, core, eff).details && Install(c, core, eff).details[id] == c.details[id]
  {
  }

  // ---- Each call ----

  /** d is c after one transaction in which activity a made exactly these rows. */
  ghost predicate Created(c: Catalog, a: Id, uses: set<(Id, string)>, rows: map<Id, NewRow>, d: Catalog) {
    && d.core.entities.Keys - c.core.entities.Keys == rows.Keys
    && (forall id :: id in rows ==>
          id in d.core.entities && id !in c.core.entities && id in d.details && d.details[id] == rows[id].detail
          && d.core.entities[id].generator == a && d.core.entities[id].created == c.core.revision + 1
          && d.core.entities[id].kind == rows[id].birth.kind)
    && (forall id :: id in c.core.entities ==> id in d.core.entities && d.core.entities[id] == c.core.entities[id])
    && (forall id :: id in c.details ==> id in d.details && d.details[id] == c.details[id])
    && (forall u :: u in uses ==> u.0 in c.core.entities && Edge(a, u.0, u.1) in d.core.inputs)
  }

  lemma OneShotCreates(c: Catalog, a: Id, who: Actor, uses: set<(Id, string)>, rows: map<Id, NewRow>, d: Catalog)
    requires c.details.Keys == c.core.entities.Keys
    requires Apply(c.core, OneShotRows(a, who, uses, rows).step) == Commit(d.core, ())
    requires d.details == c.details + OneShotRows(a, who, uses, rows).rows
    ensures Created(c, a, uses, rows, d)
  {
    hide Apply, BirthsOf;
    BirthsMatch(rows);
    OneShotResult(c.core, a, who, uses, BirthsOf(rows), d.core);
  }

  lemma BirthsMatch(rows: map<Id, NewRow>)
    ensures BirthsOf(rows).Keys == rows.Keys == DetailsOf(rows).Keys
    ensures forall id :: id in rows ==> BirthsOf(rows)[id] == rows[id].birth
  {
  }

  /** What a call's transaction adds: its own rows, and every one of them sound. */
  ghost predicate AddsSoundRows(c: Catalog, eff: Effect, d: Catalog) {
    eff.rows.Keys == d.core.entities.Keys - c.core.entities.Keys && RowsOk(d, eff.rows.Keys)
  }

  /** d is c with the effect's step and rows in place. */
  ghost predicate Installed(c: Catalog, eff: Effect, d: Catalog) {
    && c.details.Keys == c.core.entities.Keys
    && Apply(c.core, eff.step) == Commit(d.core, ())
    && d.details == c.details + eff.rows
  }

  /** A one-shot transaction is judged by its rows alone. */
  lemma OneShotSound(c: Catalog, a: Id, who: Actor, uses: set<(Id, string)>, rows: map<Id, NewRow>, eff: Effect, d: Catalog)
    requires eff.step == OneShotRows(a, who, uses, rows).step && eff.rows == OneShotRows(a, who, uses, rows).rows
    requires Installed(c, eff, d)
    requires Created(c, a, uses, rows, d) ==> RowsOk(d, rows.Keys)
    ensures AddsSoundRows(c, eff, d)
  {
    OneShotCreates(c, a, who, uses, rows, d);
    assert eff.rows.Keys == rows.Keys;
  }

  lemma OneRootAlone(o: Id)
    ensures OneRoot(map[o := Root])
  {
    assert IsRoot(map[o := Root], o);
  }

  lemma EvidenceRowsOk(c: Catalog, a: Id, e: Id, o: Id, digest: string, size: nat, path: string, d: Catalog)
    requires e != o && Created(c, a, {}, EvidenceRows(e, o, digest, size, path), d)
    ensures RowsOk(d, {e, o})
  {
    var rows := EvidenceRows(e, o, digest, size, path);
    OneRootAlone(o);
    assert e in rows && o in rows;
  }

  lemma {:induction false} FileOfUnique(entries: seq<TreeEntry>, e: TreeEntry)
    requires DistinctFiles(entries) && e in entries && e.kind.File?
    ensures e.objectId in FileIds(entries) && FileOf(entries, e.objectId) == e
  {
    if entries[0] != e {
      assert e in entries[1..];
      assert DistinctFiles(entries[1..]);
      var i :| 0 <= i < |entries| && entries[i] == e;
      FileOfUnique(entries[1..], e);
    }
  }

  /** The rows of a tree import, by key. */
  ghost predicate TreeShape(rows: map<Id, NewRow>, e: Id, t: Id, m: Id, entries: seq<TreeEntry>) {
    && rows.Keys == {e, t, m} + FileIds(entries)
    && rows[e].birth.kind == Kind.Evidence && rows[e].detail.EvidenceRow?
    && rows[e].detail.objects.Keys == {m} + FileIds(entries) && IsRoot(rows[e].detail.objects, m)
    && rows[t].birth.kind == SourceTree && rows[t].detail == TreeRow(e, m, entries)
    && (forall x :: x in {m} + FileIds(entries) ==> rows[x].birth.kind == Kind.Object && rows[x].detail.ObjectRow?)
    && (forall f :: f in entries && f.kind.File? ==>
          f.objectId in rows && rows[f.objectId].detail == ObjectRow(f.digest, f.size, f.path)
          && f.objectId in rows[e].detail.objects)
  }

  lemma TreeRowsKeys(e: Id, t: Id, m: Id, digest: string, size: nat, entries: seq<TreeEntry>)
    ensures TreeRows(e, t, m, digest, size, entries).Keys == {e, t, m} + FileIds(entries)
  {
  }

  lemma TreeRowsHeads(rows: map<Id, NewRow>, e: Id, t: Id, m: Id, digest: string, size: nat, entries: seq<TreeEntry>)
    requires e != t && e != m && t != m && rows == TreeRows(e, t, m, digest, size, entries)
    requires forall x :: x in FileIds(entries) ==> x != e && x != t && x != m
    ensures {e, t, m} <= rows.Keys
    ensures rows[e].birth.kind == Kind.Evidence && rows[e].detail.EvidenceRow?
    ensures rows[e].detail.objects.Keys == {m} + FileIds(entries) && IsRoot(rows[e].detail.objects, m)
    ensures rows[t].birth.kind == SourceTree && rows[t].detail == TreeRow(e, m, entries)
    ensures rows[m].birth.kind == Kind.Object && rows[m].detail.ObjectRow?
  {
    hide FileOf, JsonMedia, TreeManifestPath;
  }

  lemma TreeRowsFile(rows: map<Id, NewRow>, e: Id, t: Id, m: Id, digest: string, size: nat, entries: seq<TreeEntry>, f: TreeEntry)
    requires rows == TreeRows(e, t, m, digest, size, entries)
    requires f.objectId in FileIds(entries) && f.objectId != e && f.objectId != t && f.objectId != m
    requires FileOf(entries, f.objectId) == f
    ensures f.objectId in rows && rows[f.objectId].birth.kind == Kind.Object
    ensures rows[f.objectId].detail == ObjectRow(f.digest, f.size, f.path)
  {
    hide FileOf;
    assert FileRows(entries)[f.objectId].detail == ObjectRow(f.digest, f.size, f.path);
  }

  lemma TreeRowsHaveShape(e: Id, t: Id, m: Id, digest: string, size: nat, entries: seq<TreeEntry>)
    requires e != t && e != m && t != m && {e, t, m} * FileIds(entries) == {} && DistinctFiles(entries)
    ensures TreeShape(TreeRows(e, t, m, digest, size, entries), e, t, m, entries)
  {
    hide FileOf, TreeRows, FileRows, DistinctFiles;
    var rows := TreeRows(e, t, m, digest, size, entries);
    assert forall x :: x in FileIds(entries) ==> x != e && x != t && x != m by {
      assert forall x :: x in FileIds(entries) ==> x !in {e, t, m} * FileIds(entries);
    }
    TreeRowsKeys(e, t, m, digest, size, entries);
    TreeRowsHeads(rows, e, t, m, digest, size, entries);
    forall f | f in entries && f.kind.File?
      ensures f.objectId in rows && rows[f.objectId].detail == ObjectRow(f.digest, f.size, f.path)
              && f.objectId in rows[e].detail.objects
    {
      FileOfUnique(entries, f);
      TreeRowsFile(rows, e, t, m, digest, size, entries, f);
    }
    forall x | x in FileIds(entries)
      ensures rows[x].birth.kind == Kind.Object && rows[x].detail.ObjectRow?
    {
      TreeRowsFile(rows, e, t, m, digest, size, entries, FileOf(entries, x));
    }
  }

  lemma TreeRowsOk(c: Catalog, a: Id, rows: map<Id, NewRow>, e: Id, t: Id, m: Id, entries: seq<TreeEntry>, d: Catalog)
    requires TreeShape(rows, e, t, m, entries) && Created(c, a, {}, rows, d)
    ensures RowsOk(d, rows.Keys)
  {
    TreeObjectsOk(c, a, rows, e, t, m, entries, d);
    TreeRowOk(c, a, rows, e, t, m, entries, d);
    TreeEvidenceOk(c, a, rows, e, t, m, entries, d);
    hide DetailOk;
  }

  lemma TreeObjectsOk(c: Catalog, a: Id, rows: map<Id, NewRow>, e: Id, t: Id, m: Id, entries: seq<TreeEntry>, d: Catalog)
    requires TreeShape(rows, e, t, m, entries) && Created(c, a, {}, rows, d)
    ensures forall x {:trigger DetailOk(d, x)} :: x in {m} + FileIds(entries) ==> x in d.details && x in d.core.entities && DetailOk(d, x)
  {
  }

  lemma TreeRowOk(c: Catalog, a: Id, rows: map<Id, NewRow>, e: Id, t: Id, m: Id, entries: seq<TreeEntry>, d: Catalog)
    requires TreeShape(rows, e, t, m, entries) && Created(c, a, {}, rows, d)
    ensures t in d.details && t in d.core.entities && DetailOk(d, t)
  {
    assert m in rows[e].detail.objects;
    assert TreeOk(d, t, e, m, entries);
  }

  lemma TreeEvidenceOk(c: Catalog, a: Id, rows: map<Id, NewRow>, e: Id, t: Id, m: Id, entries: seq<TreeEntry>, d: Catalog)
    requires TreeShape(rows, e, t, m, entries) && Created(c, a, {}, rows, d)
    ensures e in d.details && e in d.core.entities && DetailOk(d, e)
  {
  }

  lemma RefsStayValid(c: Catalog, ids: seq<Id>, d: Catalog)
    requires AllExist(c, ids)
    requires forall id :: id in c.core.entities ==> id in d.core.entities && d.core.entities[id] == c.core.entities[id]
    ensures RefsValid(d, RefsOf(c, ids))
  {
  }

  lemma HitRowOk(c: Catalog, a: Id, id: Id, hit: Hit, rows: map<Id, NewRow>, uses: set<(Id, string)>, d: Catalog)
    requires Created(c, a, uses, rows, d) && id in rows && (hit.objectId, "searched-object") in uses && IsObject(c, hit.objectId)
    requires rows[id].birth.kind == Kind.Artifact && rows[id].detail.ArtifactRow?
    requires rows[id].detail.source == hit.objectId && rows[id].detail.producedBy == a
    ensures id in d.details && id in d.core.entities && DetailOk(d, id)
  {
    assert Edge(a, hit.objectId, "searched-object") in d.core.inputs;
    assert Uses(d, a, hit.objectId);
  }

  lemma HitRefsValid(c: Catalog, a: Id, hits: map<Id, Hit>, order: seq<Id>, uses: set<(Id, string)>, rows: map<Id, NewRow>, d: Catalog)
    requires Elements(order) == hits.Keys && NoDuplicates(order) && Created(c, a, uses, rows, d)
    requires forall id :: id in hits ==> id in rows && rows[id].birth.kind == Kind.Artifact
    ensures RefsValid(d, HitRefs(order)) && NoDuplicates(HitRefs(order))
  {
    forall r | r in HitRefs(order)
      ensures r.id in hits && r.kind == Kind.Artifact
    {
      assert r.id in Elements(order);
    }
  }

  lemma SearchRowsLookup(a: Id, s: Id, hits: map<Id, Hit>, order: seq<Id>, rev: nat)
    requires s !in hits
    ensures var rows := SearchRows(a, s, hits, order, rev);
            && rows.Keys == hits.Keys + {s}
            && rows[s].birth.kind == Kind.Selection && rows[s].detail == SelectionRow(rev, HitRefs(order))
            && forall id :: id in hits ==>
                 && rows[id].birth.kind == Kind.Artifact && rows[id].detail.ArtifactRow?
                 && rows[id].detail.source == hits[id].objectId && rows[id].detail.producedBy == a
  {
    hide HitSchema, HitRefs;
  }

  lemma SearchRowsOk(c: Catalog, a: Id, s: Id, source: Id, hits: map<Id, Hit>, order: seq<Id>, rev: nat, d: Catalog)
    requires s !in hits && Elements(order) == hits.Keys && NoDuplicates(order)
    requires forall id :: id in hits ==> IsObject(c, hits[id].objectId)
    requires Created(c, a, SearchUses(source, hits), SearchRows(a, s, hits, order, rev), d)
    ensures RowsOk(d, SearchRows(a, s, hits, order, rev).Keys)
  {
    hide DetailOk, Created, HitRefs, NoDuplicates, RefsValid, IsObject, SearchRows, Elements;
    var rows, uses := SearchRows(a, s, hits, order, rev), SearchUses(source, hits);
    SearchRowsLookup(a, s, hits, order, rev);
    HitRefsValid(c, a, hits, order, uses, rows, d);
    SearchSelectionOk(c, a, s, rows, uses, d);
    forall id | id in hits
      ensures id in d.details && id in d.core.entities && DetailOk(d, id)
    {
      assert (hits[id].objectId, "searched-object") in uses;
      HitRowOk(c, a, id, hits[id], rows, uses, d);
    }
  }

  lemma SearchSelectionOk(c: Catalog, a: Id, s: Id, rows: map<Id, NewRow>, uses: set<(Id, string)>, d: Catalog)
    requires Created(c, a, uses, rows, d) && s in rows
    requires rows[s].birth.kind == Kind.Selection && rows[s].detail.SelectionRow?
    requires RefsValid(d, rows[s].detail.selected) && NoDuplicates(rows[s].detail.selected)
    ensures s in d.details && s in d.core.entities && DetailOk(d, s)
  {
  }

  lemma CaptureRowOk(c: Catalog, a: Id, id: Id, b: Birth, digest: string, size: nat, path: string, d: Catalog)
    requires b.kind == Kind.Object
    requires Installed(c, Rows(OpEmit(a, id, b), map[id := ObjectRow(digest, size, path)]), d)
    ensures AddsSoundRows(c, Rows(OpEmit(a, id, b), map[id := ObjectRow(digest, size, path)]), d)
  {
  }

  lemma ArtifactRowOk(c: Catalog, a: Id, id: Id, schema: string, key: string, artifact: Detail, eff: Effect, reply: Reply, d: Catalog)
    requires PlanArtifact(c, a, id, schema, key, artifact) == Commit(eff, reply) && Installed(c, eff, d)
    ensures AddsSoundRows(c, eff, d)
  {
    var i :| i in c.core.inputs && i.activity == a && i.entity == artifact.source;
    assert i in d.core.inputs;
    assert Uses(d, a, artifact.source);
  }

  lemma AssertionRowOk(c: Catalog, a: Id, id: Id, key: string, assertion: Detail, eff: Effect, reply: Reply, d: Catalog)
    requires PlanAssertion(c, a, id, key, assertion) == Commit(eff, reply) && Installed(c, eff, d)
    ensures AddsSoundRows(c, eff, d)
  {
  }

  lemma SelectionRowOk(c: Catalog, a: Id, s: Id, observed: nat, picked: seq<Id>, uses: set<(Id, string)>,
                       rows: map<Id, NewRow>, d: Catalog)
    requires AllExist(c, picked) && NoDuplicates(picked) && Created(c, a, uses, rows, d)
    requires rows == map[s := NewRow(Birth(Kind.Selection, "", "", "selection"), SelectionRow(observed, RefsOf(c, picked)))]
    ensures RowsOk(d, rows.Keys)
  {
    RefsStayValid(c, picked, d);
  }

  lemma ProjectionRowOk(c: Catalog, a: Id, p: Id, s: Id, picked: seq<Id>, excluded: seq<Id>, uses: set<(Id, string)>,
                        rows: map<Id, NewRow>, d: Catalog)
    requires AllExist(c, picked) && AllExist(c, excluded) && NoDuplicates(picked) && NoDuplicates(excluded)
    requires s in c.details && c.details[s].SelectionRow? && Created(c, a, uses, rows, d)
    requires rows == map[p := NewRow(Birth(Kind.Projection, "", "", "projection"),
                                     ProjectionRow(s, RefsOf(c, picked), RefsOf(c, excluded)))]
    ensures RowsOk(d, rows.Keys)
  {
    RefsStayValid(c, picked, d);
    RefsStayValid(c, excluded, d);
  }

  lemma ChoiceSound(c: Catalog, call: Call, eff: Effect, reply: Reply, d: Catalog)
    requires call.Freeze? || call.CreateProjection?
    requires Plan(c, call) == Commit(eff, reply) && Installed(c, eff, d)
    ensures AddsSoundRows(c, eff, d)
  {
    hide Installed, AddsSoundRows, Created, RowsOk, OneShotRows, RefsOf, NoDuplicates;
    match call {
      case Freeze(a, who, s, observed, picked) =>
        var uses := set m | m in picked :: (m, "member");
        var rows := map[s := NewRow(Birth(Kind.Selection, "", "", "selection"), SelectionRow(observed, RefsOf(c, picked)))];
        if Created(c, a, uses, rows, d) {
          SelectionRowOk(c, a, s, observed, picked, uses, rows, d);
        }
        OneShotSound(c, a, who, uses, rows, eff, d);
      case CreateProjection(a, who, p, s, picked, excluded) =>
        var uses := {(s, "selection")};
        var rows := map[p := NewRow(Birth(Kind.Projection, "", "", "projection"),
                                    ProjectionRow(s, RefsOf(c, picked), RefsOf(c, excluded)))];
        if Created(c, a, uses, rows, d) {
          ProjectionRowOk(c, a, p, s, picked, excluded, uses, rows, d);
        }
        OneShotSound(c, a, who, uses, rows, eff, d);
    }
  }

  lemma SavedRowsOk(c: Catalog, a: Id, who: Actor, s: Id, source: Id, hits: map<Id, Hit>, order: seq<Id>,
                    eff: Effect, reply: Reply, d: Catalog)
    requires PlanSearch(c, a, who, s, source, hits, order) == Commit(eff, reply) && Installed(c, eff, d)
    ensures AddsSoundRows(c, eff, d)
  {
    hide Installed, AddsSoundRows, Created, RowsOk, Elements, NoDuplicates, SearchRows, SearchUses, OneShotRows;
    var rows, uses := SearchRows(a, s, hits, order, c.core.revision + 1), SearchUses(source, hits);
    if Created(c, a, uses, rows, d) {
      SearchRowsOk(c, a, s, source, hits, order, c.core.revision + 1, d);
    }
    OneShotSound(c, a, who, uses, rows, eff, d);
  }

  lemma FindingRowOk(c: Catalog, a: Id, id: Id, uses: set<(Id, string)>, row: Detail, rows: map<Id, NewRow>, d: Catalog)
    requires row.FindingRow? && row.members <= uses && rows == FindingRows(id, row)
    requires Created(c, a, uses, rows, d)
    ensures RowsOk(d, rows.Keys)
  {
  }

  lemma FindingSound(c: Catalog, call: Call, eff: Effect, reply: Reply, d: Catalog)
    requires call.AuthorFinding? || call.ReviseFinding?
    requires Plan(c, call) == Commit(eff, reply) && Installed(c, eff, d)
    ensures AddsSoundRows(c, eff, d)
  {
    hide Installed, AddsSoundRows, Created, RowsOk, FindingRows, Predecessor, OneShotRows, Elements, NoDuplicates;
    var members := Elements(call.members);
    var row := if call.AuthorFinding? then FindingRow(call.finding, 1, None, members)
      else FindingRow(call.finding, c.findings[call.finding].version + 1, Some(c.findings[call.finding].current), members);
    var uses := if call.AuthorFinding? then members else members + Predecessor(c.findings[call.finding].current);
    var rows := FindingRows(call.id, row);
    if Created(c, call.activity, uses, rows, d) {
      FindingRowOk(c, call.activity, call.id, uses, row, rows, d);
    }
    OneShotSound(c, call.activity, call.who, uses, rows, eff, d);
  }

  lemma PublishedRowsOk(c: Catalog, a: Id, uses: set<(Id, string)>, rows: map<Id, NewRow>, d: Catalog)
    requires forall id :: id in rows ==> (rows[id].detail.ObjectRow? && rows[id].birth.kind == Kind.Manifest)
                                         || (rows[id].detail.DeliverableRow? && rows[id].birth.kind == Kind.Deliverable)
    requires Created(c, a, uses, rows, d)
    ensures RowsOk(d, rows.Keys)
  {
  }

  lemma PublishSound(c: Catalog, a: Id, who: Actor, uses: set<(Id, string)>, rows: map<Id, NewRow>, eff: Effect, reply: Reply, d: Catalog)
    requires PlanPublish(a, who, uses, rows) == Commit(eff, reply) && Installed(c, eff, d)
    ensures AddsSoundRows(c, eff, d)
  {
    if Created(c, a, uses, rows, d) {
      PublishedRowsOk(c, a, uses, rows, d);
    }
    OneShotSound(c, a, who, uses, rows, eff, d);
  }

  lemma PlainSound(c: Catalog, eff: Effect, d: Catalog)
    requires eff.rows == map[] && !eff.step.OpEmit? && !eff.step.OpOneShot? && Installed(c, eff, d)
    ensures AddsSoundRows(c, eff, d)
  {
  }

  lemma CacheSound(c: Catalog, key: string, source: Id, outputs: seq<Id>, eff: Effect, reply: Reply, d: Catalog)
    requires PlanCache(c, key, source, outputs) == Commit(eff, reply) && Installed(c, eff, d)
    ensures AddsSoundRows(c, eff, d)
  {
  }

  lemma EvidenceSound(c: Catalog, a: Id, who: Actor, e: Id, o: Id, digest: string, size: nat, path: string, eff: Effect, d: Catalog)
    requires e != o && eff == OneShotRows(a, who, {}, EvidenceRows(e, o, digest, size, path)) && Installed(c, eff, d)
    ensures AddsSoundRows(c, eff, d)
  {
    var rows := EvidenceRows(e, o, digest, size, path);
    assert rows.Keys == {e, o};
    if Created(c, a, {}, rows, d) {
      EvidenceRowsOk(c, a, e, o, digest, size, path, d);
    }
    OneShotSound(c, a, who, {}, rows, eff, d);
  }

  lemma TreeSound(c: Catalog, a: Id, who: Actor, e: Id, t: Id, m: Id, digest: string, size: nat, entries: seq<TreeEntry>,
                  eff: Effect, reply: Reply, d: Catalog)
    requires PlanTree(a, who, e, t, m, digest, size, entries) == Commit(eff, reply) && Installed(c, eff, d)
    ensures AddsSoundRows(c, eff, d)
  {
    var rows := TreeRows(e, t, m, digest, size, entries);
    if Created(c, a, {}, rows, d) {
      TreeRowsHaveShape(e, t, m, digest, size, entries);
      TreeRowsOk(c, a, rows, e, t, m, entries, d);
    }
    OneShotSound(c, a, who, {}, rows, eff, d);
  }

  /** The rows of every committed call pass the semantic checks of `Verify`. */
  lemma CallRowsOk(c: Catalog, call: Call, eff: Effect, reply: Reply, d: Catalog)
    requires Plan(c, call) == Commit(eff, reply) && Installed(c, eff, d)
    ensures AddsSoundRows(c, eff, d)
  {
    hide PlanArtifact, PlanAssertion, PlanFreeze, PlanProjection, PlanSearch, PlanTree, PlanPublish, PlanAuthor, PlanRevise;
    hide PlanCache, Installed, AddsSoundRows, OneShotRows, EvidenceRows;
    match call {
      case Capture(a, id, b, digest, size, path) => CaptureRowOk(c, a, id, b, digest, size, path, d);
      case EmitArtifact(a, id, schema, key, artifact) => ArtifactRowOk(c, a, id, schema, key, artifact, eff, reply, d);
      case Relate(a, id, key, assertion) => AssertionRowOk(c, a, id, key, assertion, eff, reply, d);
      case ImportEvidence(a, who, e, o, digest, size, path) =>
        EvidenceSound(c, a, who, e, o, digest, size, path, eff, d);
      case ImportTree(a, who, e, t, m, digest, size, entries) =>
        TreeSound(c, a, who, e, t, m, digest, size, entries, eff, reply, d);
      case Freeze(_, _, _, _, _) => ChoiceSound(c, call, eff, reply, d);
      case CreateProjection(_, _, _, _, _, _) => ChoiceSound(c, call, eff, reply, d);
      case SaveSearch(a, who, s, source, hits, order) => SavedRowsOk(c, a, who, s, source, hits, order, eff, reply, d);
      case AuthorFinding(_, _, _, _, _, _) => FindingSound(c, call, eff, reply, d);
      case ReviseFinding(_, _, _, _, _, _) => FindingSound(c, call, eff, reply, d);
      case Publish(a, who, uses, rows) => PublishSound(c, a, who, uses, rows, eff, reply, d);
      case StoreCache(key, source, outputs) => CacheSound(c, key, source, outputs, eff, reply, d);
      case _ => PlainSound(c, eff, d);
    }
  }

  // ---- Findings ----

  /** An effect that touches no index, cache entry, finding or assertion. */
  ghost predicate OnlyRows(eff: Effect) {
    && eff.producers == map[] && eff.cache == map[] && eff.findings == map[]
    && forall id :: id in eff.rows ==> !eff.rows[id].FindingRow? && !eff.rows[id].AssertionRow?
  }

  lemma OneShotOnlyRows(a: Id, who: Actor, uses: set<(Id, string)>, rows: map<Id, NewRow>)
    requires forall id :: id in rows ==> !rows[id].detail.FindingRow? && !rows[id].detail.AssertionRow?
    ensures OnlyRows(OneShotRows(a, who, uses, rows))
  {
  }

  lemma TreeOnlyRows(a: Id, who: Actor, e: Id, t: Id, m: Id, digest: string, size: nat, entries: seq<TreeEntry>)
    ensures OnlyRows(OneShotRows(a, who, {}, TreeRows(e, t, m, digest, size, entries)))
  {
    hide FileOf, JsonMedia, TreeManifestPath;
  }

  lemma EvidenceOnlyRows(a: Id, who: Actor, e: Id, o: Id, digest: string, size: nat, path: string)
    ensures OnlyRows(OneShotRows(a, who, {}, EvidenceRows(e, o, digest, size, path)))
  {
  }

  /** Apart from emissions, cache stores and findings, calls only add rows. */
  lemma OtherCallsOnlyAddRows(c: Catalog, call: Call, eff: Effect, reply: Reply)
    requires Plan(c, call) == Commit(eff, reply)
    requires !call.AuthorFinding? && !call.ReviseFinding? && !call.EmitArtifact? && !call.Relate? && !call.StoreCache?
    ensures OnlyRows(eff)
  {
    hide OneShotRows, TreeRows, OnlyRows, IsObject, AllExist, RefsOf, NoDuplicates, SearchRows, PlanSearch, EvidenceRows;
    match call {
      case ImportEvidence(a, who, e, o, digest, size, path) =>
        EvidenceOnlyRows(a, who, e, o, digest, size, path);
      case ImportTree(a, who, e, t, m, digest, size, entries) => TreeOnlyRows(a, who, e, t, m, digest, size, entries);
      case Freeze(a, who, s, observed, picked) =>
        OneShotOnlyRows(a, who, set m | m in picked :: (m, "member"),
                        map[s := NewRow(Birth(Kind.Selection, "", "", "selection"), SelectionRow(observed, RefsOf(c, picked)))]);
      case CreateProjection(a, who, p, s, picked, excluded) =>
        OneShotOnlyRows(a, who, {(s, "selection")},
                        map[p := NewRow(Birth(Kind.Projection, "", "", "projection"),
                                        ProjectionRow(s, RefsOf(c, picked), RefsOf(c, excluded)))]);
      case SaveSearch(a, who, s, source, hits, order) => SearchOnlyRows(c, a, who, s, source, hits, order);
      case Publish(a, who, uses, rows) => OneShotOnlyRows(a, who, uses, rows);
      case TouchCase => RowsAloneAreRows(eff);
      case BeginActivity(_, _) => RowsAloneAreRows(eff);
      case UseInput(_, _, _) => RowsAloneAreRows(eff);
      case SealActivity(_) => RowsAloneAreRows(eff);
      case Capture(_, _, _, _, _, _) => RowsAloneAreRows(eff);
      case FinishActivity(_, _) => RowsAloneAreRows(eff);
      case MarkInterrupted(_) => RowsAloneAreRows(eff);
    }
  }

  lemma RowsAloneAreRows(eff: Effect)
    requires eff == Rows(eff.step, eff.rows) && forall id :: id in eff.rows ==> eff.rows[id].ObjectRow?
    ensures OnlyRows(eff)
  {
  }

  lemma SearchOnlyRows(c: Catalog, a: Id, who: Actor, s: Id, source: Id, hits: map<Id, Hit>, order: seq<Id>)
    requires PlanSearch(c, a, who, s, source, hits, order).Commit?
    ensures OnlyRows(PlanSearch(c, a, who, s, source, hits, order).state)
  {
    hide HitSchema;
  }

  /** What a finding call plans: one new version at the end of one chain. */
  lemma FindingPlan(c: Catalog, call: Call, eff: Effect, reply: Reply)
    requires Inv(c) && Plan(c, call) == Commit(eff, reply) && (call.AuthorFinding? || call.ReviseFinding?)
    ensures eff.findings.Keys == {call.finding} && eff.rows.Keys == {call.id}
    ensures var row, f := eff.rows[call.id], eff.findings[call.finding];
            && row.FindingRow? && row.finding == call.finding && f.current == call.id && f.version == row.version >= 1
            && (call.finding !in c.findings ==> row.version == 1 && row.predecessor.None?)
            && (call.finding in c.findings ==>
                  row.version == c.findings[call.finding].version + 1 && row.predecessor == Some(c.findings[call.finding].current))
  {
    hide DetailsOk, ProducersOk, CoreInv, BirthsOf, Predecessor, RevisionsOk, VersionsUnique, Elements;
  }

  lemma FindingChainGrows(c: Catalog, call: Call, eff: Effect, reply: Reply, core: Core)
    requires Inv(c) && Plan(c, call) == Commit(eff, reply) && (call.AuthorFinding? || call.ReviseFinding?)
    requires call.id !in c.details
    ensures FindingsOk(Install(c, core, eff))
  {
    hide Plan, Inv, FindingsOk;
    FindingPlan(c, call, eff, reply);
    FindingsOfInv(c);
    ChainGrows(c, Install(c, core, eff), call.finding, call.id);
  }

  lemma FindingsOfInv(c: Catalog)
    requires Inv(c)
    ensures FindingsOk(c)
  {
  }

  /** d has one more revision of f than c, its new last one. */
  ghost predicate OneMoreVersion(c: Catalog, d: Catalog, f: Id, id: Id) {
    && id !in c.details && d.details.Keys == c.details.Keys + {id}
    && (forall x :: x in c.details ==> d.details[x] == c.details[x])
    && d.findings.Keys == c.findings.Keys + {f} && (forall g :: g in c.findings && g != f ==> d.findings[g] == c.findings[g])
    && d.details[id].FindingRow? && d.details[id].finding == f
    && d.findings[f].current == id && d.findings[f].version == d.details[id].version >= 1
    && (f !in c.findings ==> d.details[id].version == 1 && d.details[id].predecessor.None?)
    && (f in c.findings ==> d.details[id].version == c.findings[f].version + 1
                            && d.details[id].predecessor == Some(c.findings[f].current))
  }

  lemma ChainGrows(c: Catalog, d: Catalog, f: Id, id: Id)
    requires FindingsOk(c) && OneMoreVersion(c, d, f, id)
    ensures FindingsOk(d)
  {
    forall x | x in d.details && d.details[x].FindingRow?
      ensures RevisionOk(d, x)
    {
      if x != id {
        assert RevisionOk(c, x);
        RevisionStaysOk(c, d, f, x);
      }
    }
    VersionsStayUnique(c, d, f, id);
    hide VersionsUnique;
  }

  lemma VersionsStayUnique(c: Catalog, d: Catalog, f: Id, id: Id)
    requires FindingsOk(c) && OneMoreVersion(c, d, f, id)
    ensures VersionsUnique(d)
  {
    forall x, y, g, v: nat | IsVersion(d, x, g, v) && IsVersion(d, y, g, v)
      ensures x == y
    {
      if x != id && y != id {
        assert IsVersion(c, x, g, v) && IsVersion(c, y, g, v);
      } else {
        assert x != id ==> RevisionOk(c, x);
        assert y != id ==> RevisionOk(c, y);
      }
    }
  }

  lemma RevisionStaysOk(c: Catalog, d: Catalog, f: Id, x: Id)
    requires c.details.Keys <= d.details.Keys && forall y :: y in c.details ==> d.details[y] == c.details[y]
    requires c.findings.Keys <= d.findings.Keys
    requires forall g :: g in c.findings ==> d.findings[g].version >= c.findings[g].version
    requires x in c.details && c.details[x].FindingRow? && RevisionOk(c, x)
    ensures RevisionOk(d, x)
  {
  }

  // ---- Whole requests ----

  lemma CallKeeps(c: Catalog, call: Call)
    requires Inv(c) && ApplyCall(c, call).Commit?
    ensures Inv(ApplyCall(c, call).state) && Extends(c, ApplyCall(c, call).state)
    ensures ApplyCall(c, call).state.core.revision == c.core.revision + 1 == ApplyCall(c, call).reply.revision
  {
    hide Plan, Apply, DetailsOk, ProducersOk, FindingsOk, EffectFits, CoreInv, CoreExtends, Extends;
    var eff, reply := Plan(c, call).state, Plan(c, call).reply;
    var core := Apply(c.core, eff.step).state;
    assert Apply(c.core, eff.step).reply == ();
    var d := Install(c, core, eff);
    assert ApplyCall(c, call).state == d;
    ApplyInv(c.core, eff.step);
    ApplyExtends(c.core, eff.step);
    EffectOfCallFits(c, call, eff, reply, core);
    InstalledDetails(c, eff, core);
    InstalledProducers(c, eff, core);
    FindingsAfterCall(c, call, eff, reply, core);
    ExtendsByInstall(c, eff, core);
  }

  lemma EffectOfCallFits(c: Catalog, call: Call, eff: Effect, reply: Reply, core: Core)
    requires Inv(c) && Plan(c, call) == Commit(eff, reply) && Apply(c.core, eff.step) == Commit(core, ())
    ensures EffectFits(c, eff, Install(c, core, eff))
  {
    var d := Install(c, core, eff);
    assert Installed(c, eff, d);
    CallRowsOk(c, call, eff, reply, d);
    KeysOfCall(c, call, eff, reply, core);
  }

  /** New producer keys and cache keys were unused before. */
  ghost predicate KeysFresh(c: Catalog, eff: Effect, core: Core) {
    && (forall k :: k in eff.cache ==> k !in c.cache)
    && (forall k :: k in eff.producers ==>
          && k !in c.producers && k.key != "" && eff.producers[k] in eff.rows
          && (eff.rows[eff.producers[k]].ArtifactRow? || eff.rows[eff.producers[k]].AssertionRow?)
          && eff.producers[k] in core.entities && core.entities[eff.producers[k]].generator == k.activity)
  }

  lemma KeysOfCall(c: Catalog, call: Call, eff: Effect, reply: Reply, core: Core)
    requires Plan(c, call) == Commit(eff, reply) && Apply(c.core, eff.step) == Commit(core, ())
    ensures KeysFresh(c, eff, core)
  {
    hide Apply, PlanArtifact, PlanAssertion, PlanFreeze, PlanProjection, PlanSearch, PlanTree, PlanPublish;
    match call {
      case EmitArtifact(a, id, schema, key, artifact) => ArtifactKeyFresh(c, a, id, schema, key, artifact, eff, reply, core);
      case Relate(a, id, key, assertion) => AssertionKeyFresh(c, a, id, key, assertion, eff, reply, core);
      case StoreCache(_, _, _) =>
      case AuthorFinding(_, _, _, _, _, _) =>
      case ReviseFinding(_, _, _, _, _, _) =>
      case _ => OtherKeysFresh(c, call, eff, reply, core);
    }
  }

  lemma OtherKeysFresh(c: Catalog, call: Call, eff: Effect, reply: Reply, core: Core)
    requires Plan(c, call) == Commit(eff, reply)
    requires !call.AuthorFinding? && !call.ReviseFinding? && !call.EmitArtifact? && !call.Relate? && !call.StoreCache?
    ensures KeysFresh(c, eff, core)
  {
    hide Plan;
    OtherCallsOnlyAddRows(c, call, eff, reply);
  }

  lemma ArtifactKeyFresh(c: Catalog, a: Id, id: Id, schema: string, key: string, artifact: Detail, eff: Effect, reply: Reply, core: Core)
    requires PlanArtifact(c, a, id, schema, key, artifact) == Commit(eff, reply) && Apply(c.core, eff.step) == Commit(core, ())
    ensures KeysFresh(c, eff, core)
  {
  }

  lemma AssertionKeyFresh(c: Catalog, a: Id, id: Id, key: string, assertion: Detail, eff: Effect, reply: Reply, core: Core)
    requires PlanAssertion(c, a, id, key, assertion) == Commit(eff, reply) && Apply(c.core, eff.step) == Commit(core, ())
    ensures KeysFresh(c, eff, core)
  {
  }

  lemma EntitiesMatchDetails(c: Catalog)
    requires Inv(c)
    ensures c.details.Keys == c.core.entities.Keys
  {
  }

  lemma NoFindingNamed(c: Catalog, call: Call, eff: Effect, reply: Reply)
    requires Plan(c, call) == Commit(eff, reply) && !call.AuthorFinding? && !call.ReviseFinding?
    ensures eff.findings == map[] && forall id :: id in eff.rows ==> !eff.rows[id].FindingRow?
  {
    if !call.EmitArtifact? && !call.Relate? && !call.StoreCache? {
      OtherCallsOnlyAddRows(c, call, eff, reply);
      hide Plan;
    } else {
      hide Produced, Uses;
    }
  }

  /** Only Relate writes an assertion, the one it was given. */
  lemma AssertionsPlanned(c: Catalog, call: Call, eff: Effect, reply: Reply)
    requires Plan(c, call) == Commit(eff, reply)
    ensures if call.Relate? then eff.rows == map[call.id := call.assertion] && call.assertion.AssertionRow?
            else forall id :: id in eff.rows ==> !eff.rows[id].AssertionRow?
  {
    if call.Relate? {
      hide Produced;
    } else if call.EmitArtifact? || call.StoreCache? {
      hide Produced, Uses;
    } else if call.AuthorFinding? || call.ReviseFinding? {
      hide BirthsOf, Predecessor, Elements, NoDuplicates;
    } else {
      OtherCallsOnlyAddRows(c, call, eff, reply);
      hide Plan;
    }
  }

  lemma NoCacheWritten(c: Catalog, call: Call, eff: Effect, reply: Reply)
    requires Plan(c, call) == Commit(eff, reply) && !call.StoreCache?
    ensures eff.cache == map[]
  {
    if !call.EmitArtifact? && !call.Relate? && !call.AuthorFinding? && !call.ReviseFinding? {
      hide Plan;
      OtherCallsOnlyAddRows(c, call, eff, reply);
    } else {
      hide Produced, Uses, OneShotRows, FindingRows, NoDuplicates;
      assert call.AuthorFinding? || call.ReviseFinding? ==> eff.cache == map[] by {
        OneShotWritesNoCache();
      }
    }
  }

  lemma OneShotWritesNoCache()
    ensures forall a, who, uses, rows :: OneShotRows(a, who, uses, rows).cache == map[]
  {
  }

  lemma FindingsAfterCall(c: Catalog, call: Call, eff: Effect, reply: Reply, core: Core)
    requires Inv(c) && Plan(c, call) == Commit(eff, reply) && Apply(c.core, eff.step) == Commit(core, ())
    requires EffectFits(c, eff, Install(c, core, eff))
    ensures FindingsOk(Install(c, core, eff))
    ensures forall f :: f in eff.findings && f in c.findings ==> eff.findings[f].version > c.findings[f].version
  {
    hide Plan, Apply, Inv, FindingsOk, DetailOk;
    FindingsOfInv(c);
    if call.AuthorFinding? || call.ReviseFinding? {
      EntitiesMatchDetails(c);
      FindingPlan(c, call, eff, reply);
      assert call.id in eff.rows;
      FindingChainGrows(c, call, eff, reply, core);
    } else {
      NoFindingNamed(c, call, eff, reply);
      EntitiesMatchDetails(c);
      FindingsStayOk(c, eff, core);
    }
  }

  /** A request commits one revision of a sound, larger catalog, or changes nothing. */
  lemma RequestKeeps(c: Catalog, r: Request)
    requires Inv(c)
    ensures Inv(Next(c, r)) && Extends(c, Next(c, r))
    ensures Handle(c, r).Commit? ==> Next(c, r).core.revision == c.core.revision + 1
    ensures !Handle(c, r).Commit? ==> Next(c, r) == c
  {
    hide ApplyCall, Inv, Extends;
    ExtendsReflexive(c);
    if Handle(c, r).Commit? {
      CallKeeps(c, r.call);
      var d := ApplyCall(c, r.call).state;
      assert Next(c, r).core.revision == d.core.revision;
      if r.key.key != "" {
        KeyStored(c, d, r.key, KeyRow(r.fingerprint, ApplyCall(c, r.call).reply));
      }
    }
  }

  predicate KeyUnused(c: Catalog, r: Request) {
    r.key.key == "" || r.key !in c.keys
  }

  /** When a request commits, and what it leaves behind apart from its key. */
  lemma CommittedRequest(c: Catalog, r: Request)
    ensures Handle(c, r).Commit? <==>
      KeyUnused(c, r) && Plan(c, r.call).Commit? && Apply(c.core, Plan(c, r.call).state.step).Commit?
    ensures Handle(c, r).Commit? ==>
      Next(c, r).(keys := c.keys) == Install(c, Apply(c.core, Plan(c, r.call).state.step).state, Plan(c, r.call).state)
  {
    hide Plan, Apply;
  }

  lemma KeyStored(c: Catalog, d: Catalog, k: IdempotencyKey, row: KeyRow)
    requires Inv(d) && Extends(c, d) && k !in c.keys
    ensures Inv(d.(keys := d.keys[k := row])) && Extends(c, d.(keys := d.keys[k := row]))
  {
    KeysDoNotMatter(d, d.keys[k := row]);
    hide Inv, CoreExtends;
  }

  lemma KeysDoNotMatter(c: Catalog, keys: map<IdempotencyKey, KeyRow>)
    requires Inv(c)
    ensures Inv(c.(keys := keys))
  {
    var d := c.(keys := keys);
    forall id | id in c.details
      ensures DetailOk(d, id)
    {
      DetailStaysOk(c, d, id);
    }
    FindingsReadTheirRows(c, d);
    hide DetailOk, FindingsOk, CoreInv;
  }

  lemma FindingsReadTheirRows(c: Catalog, d: Catalog)
    requires FindingsOk(c) && d.details == c.details && d.findings == c.findings
    ensures FindingsOk(d)
  {
    forall x, f, v: nat
      ensures IsVersion(d, x, f, v) <==> IsVersion(c, x, f, v)
    {
    }
    forall id | id in d.details && d.details[id].FindingRow?
      ensures RevisionOk(d, id)
    {
      assert RevisionOk(c, id);
    }
  }

  /** Every run keeps the invariant and only extends the catalog it starts from. */
  lemma {:induction false} RunKeeps(c: Catalog, requests: seq<Request>)
    requires Inv(c)
    ensures Inv(Run(c, requests)) && Extends(c, Run(c, requests))
    decreases |requests|
  {
    hide Inv, Extends, Next;
    if requests == [] {
      ExtendsReflexive(c);
    } else {
      var d := Next(c, requests[0]);
      RequestKeeps(c, requests[0]);
      RunKeeps(d, requests[1..]);
      ExtendsTransitive(c, d, Run(d, requests[1..]));
    }
  }
}
