/** Closure policies of a projection: what each one selects, and the worklist that finds it. */
module Closures {
  import opened Common
  import opened Order
  import opened Graph
  import opened Provenance
  import opened Catalog
  import opened CatalogInvariants

  datatype Policy = Exact | InputBytes | Sources | FullProvenance | FindingContext | OtherPolicy

  datatype Tag = TreeManifest | TreeEntryFile | SourceMetadata | InputByte | Context | Derived

  /** Why an entity is in a projection; a reason other than `selected` names another entity. */
  datatype Reason = Selected | From(tag: Tag, via: Id)
  datatype Member = Member(ref: Ref, reason: Reason)

  // ---- Steps ----

  /** The manifest and the files of a source tree. */
  function TreeStep(c: Catalog, x: Id): set<Id> {
    if x in c.details && c.details[x].TreeRow? then {c.details[x].manifest} + FileIds(c.details[x].entries) else {}
  }

  /** The inputs of the activity named by an entity's generating_activity_id. */
  function InputsOf(c: Catalog, x: Id): set<Id> {
    if x in c.core.entities
    then set i | i in c.core.inputs && i.activity == c.core.entities[x].generator :: i.entity
    else {}
  }

  function OfKinds(c: Catalog, ids: set<Id>, kinds: set<Kind>): set<Id> {
    set y | y in ids && y in c.core.entities && c.core.entities[y].kind in kinds
  }

  function MembersOf(c: Catalog, x: Id): set<Id> {
    if x in c.details && c.details[x].FindingRow? then set m | m in c.details[x].members :: m.0 else {}
  }

  function DerivationStep(c: Catalog, policy: Policy, x: Id): set<Id> {
    match policy
    case InputBytes => OfKinds(c, InputsOf(c, x), {Kind.Object, Kind.Manifest})
    case Sources => InputsOf(c, x)
    case FullProvenance => InputsOf(c, x)
    case FindingContext =>
      if x in c.core.entities && c.core.entities[x].kind == FindingRevision then MembersOf(c, x)
      else OfKinds(c, InputsOf(c, x), {Kind.Object, Kind.Artifact})
    case _ => {}
  }

  function Step(c: Catalog, policy: Policy, x: Id): set<Id> {
    TreeStep(c, x) + DerivationStep(c, policy, x)
  }

  function StepEdges(c: Catalog, policy: Policy): Edges {
    set x, y | x in c.core.entities && y in Step(c, policy, x) :: (x, y)
  }

  predicate Transitive(policy: Policy) {
    policy.Sources? || policy.FullProvenance? || policy.FindingContext?
  }

  /** What a policy selects around the selected entities: themselves, one step, or the least
      set that contains them and every step from its members. */
  function Resolved(c: Catalog, policy: Policy, s: set<Id>): set<Id> {
    if Transitive(policy) then Closure(StepEdges(c, policy), s)
    else if policy.InputBytes? then s + Image(StepEdges(c, policy), s)
    else s
  }

  // ---- What a policy selects, told from the tables ----

  /** The tree x has y as its manifest or as one of its files. */
  ghost predicate HoldsInTree(c: Catalog, x: Id, y: Id) {
    x in c.details && c.details[x].TreeRow?
    && (y == c.details[x].manifest || exists e :: e in c.details[x].entries && e.kind.File? && e.objectId == y)
  }

  /** The activity that made x used y. */
  ghost predicate UsedFor(c: Catalog, x: Id, y: Id) {
    x in c.core.entities && exists role :: Edge(c.core.entities[x].generator, y, role) in c.core.inputs
  }

  ghost predicate HasKind(c: Catalog, y: Id, kind: Kind) {
    y in c.core.entities && c.core.entities[y].kind == kind
  }

  /** The finding revision x lists y. */
  ghost predicate ListsMember(c: Catalog, x: Id, y: Id) {
    x in c.details && c.details[x].FindingRow? && exists role :: (y, role) in c.details[x].members
  }

  /** Under the policy, x brings y into the projection. */
  ghost predicate Brings(c: Catalog, policy: Policy, x: Id, y: Id) {
    x in c.core.entities
    && (HoldsInTree(c, x, y)
        || match policy
           case InputBytes => UsedFor(c, x, y) && (HasKind(c, y, Kind.Object) || HasKind(c, y, Kind.Manifest))
           case Sources => UsedFor(c, x, y)
           case FullProvenance => UsedFor(c, x, y)
           case FindingContext =>
             if HasKind(c, x, FindingRevision) then ListsMember(c, x, y)
             else UsedFor(c, x, y) && (HasKind(c, y, Kind.Object) || HasKind(c, y, Kind.Artifact))
           case _ => false)
  }

  /** Each entity of the trail brings the one after it. */
  ghost predicate Trail(c: Catalog, policy: Policy, p: seq<Id>) {
    p != [] && forall i :: 0 <= i < |p| - 1 ==> Brings(c, policy, p[i], p[i + 1])
  }

  lemma TreeStepMeans(c: Catalog, x: Id, y: Id)
    ensures y in TreeStep(c, x) <==> HoldsInTree(c, x, y)
  {
  }

  lemma InputsMean(c: Catalog, x: Id, y: Id)
    ensures y in InputsOf(c, x) <==> UsedFor(c, x, y)
  {
    if x in c.core.entities && y in InputsOf(c, x) {
      var i :| i in c.core.inputs && i.activity == c.core.entities[x].generator && i.entity == y;
      assert i == Edge(c.core.entities[x].generator, y, i.role);
    }
    if x in c.core.entities {
      if role :| Edge(c.core.entities[x].generator, y, role) in c.core.inputs {
        assert Edge(c.core.entities[x].generator, y, role).entity in InputsOf(c, x);
      }
    }
  }

  lemma MembersMean(c: Catalog, x: Id, y: Id)
    ensures y in MembersOf(c, x) <==> ListsMember(c, x, y)
  {
    if x in c.details && c.details[x].FindingRow? {
      if m :| m in c.details[x].members && m.0 == y {
        assert m == (y, m.1);
      }
    }
  }

  lemma StepMeans(c: Catalog, policy: Policy, x: Id, y: Id)
    ensures (x, y) in StepEdges(c, policy) <==> Brings(c, policy, x, y)
  {
    TreeStepMeans(c, x, y);
    InputsMean(c, x, y);
    MembersMean(c, x, y);
    hide TreeStep, InputsOf, MembersOf, HoldsInTree, UsedFor, ListsMember;
  }

  lemma TrailsArePaths(c: Catalog, policy: Policy, p: seq<Id>)
    ensures IsPath(StepEdges(c, policy), p) <==> Trail(c, policy, p)
  {
    if p != [] {
      forall i | 0 <= i < |p| - 1
        ensures (p[i], p[i + 1]) in StepEdges(c, policy) <==> Brings(c, policy, p[i], p[i + 1])
      {
        StepMeans(c, policy, p[i], p[i + 1]);
      }
    }
    hide StepEdges, Brings;
  }

  lemma OneStepMeans(c: Catalog, policy: Policy, s: set<Id>, y: Id)
    ensures y in Image(StepEdges(c, policy), s) <==> exists x :: x in s && Brings(c, policy, x, y)
  {
    hide StepEdges, Brings;
    var g := StepEdges(c, policy);
    if y in Image(g, s) {
      var e :| e in g && e.0 in s && e.1 == y;
      assert e == (e.0, y);
      StepMeans(c, policy, e.0, y);
    }
    if x :| x in s && Brings(c, policy, x, y) {
      StepMeans(c, policy, x, y);
      assert (x, y) in g;
    }
  }

  ghost predicate TrailFromTo(c: Catalog, policy: Policy, s: set<Id>, p: seq<Id>, y: Id) {
    Trail(c, policy, p) && p[0] in s && p[|p| - 1] == y
  }

  lemma TrailsMean(c: Catalog, policy: Policy, s: set<Id>, y: Id)
    ensures y in Closure(StepEdges(c, policy), s) <==> exists p :: TrailFromTo(c, policy, s, p, y)
  {
    hide StepEdges, Trail, Closure;
    var g := StepEdges(c, policy);
    if y in Closure(g, s) {
      var p := ClosureHasPath(g, s, y);
      TrailsArePaths(c, policy, p);
      assert TrailFromTo(c, policy, s, p, y);
    }
    if p :| TrailFromTo(c, policy, s, p, y) {
      TrailsArePaths(c, policy, p);
      PathStaysInClosed(g, p, Closure(g, s), |p| - 1);
    }
  }

  /** exact selects the selected entities alone, input-bytes also what one of them brings, and
      the transitive policies everything at the end of a trail from one of them. */
  lemma ResolvedMeans(c: Catalog, policy: Policy, s: set<Id>, y: Id)
    ensures policy.Exact? ==> (y in Resolved(c, policy, s) <==> y in s)
    ensures policy.InputBytes? ==>
      (y in Resolved(c, policy, s) <==> y in s || exists x :: x in s && Brings(c, policy, x, y))
    ensures policy.Sources? || policy.FullProvenance? || policy.FindingContext? ==>
      (y in Resolved(c, policy, s) <==> exists p :: TrailFromTo(c, policy, s, p, y))
  {
    OneStepMeans(c, policy, s, y);
    TrailsMean(c, policy, s, y);
    hide StepEdges, Brings, Closure, Image, TrailFromTo;
  }

  /** What the reason of a member that is not selected says of the member it names. */
  ghost predicate ReasonHolds(c: Catalog, policy: Policy, x: Id, y: Id, tag: Tag) {
    && Brings(c, policy, x, y)
    && (tag == SourceMetadata <==> policy == Sources)
    && (tag == Context <==> policy == FindingContext)
    && (tag == TreeManifest ==> HoldsInTree(c, x, y) && y == c.details[x].manifest)
    && (tag == TreeEntryFile ==> HoldsInTree(c, x, y) && exists e :: e in c.details[x].entries && e.kind.File? && e.objectId == y)
    && (tag == InputByte ==> policy == InputBytes && UsedFor(c, x, y))
    && (tag == Derived ==> policy == FullProvenance && UsedFor(c, x, y))
  }

  // ---- Policies compared ----

  /** Every finding member is an input of the activity that wrote the revision. */
  lemma FindingMembersAreInputs(c: Catalog, x: Id)
    requires Inv(c)
    ensures MembersOf(c, x) <= InputsOf(c, x)
  {
    if x in c.details && c.details[x].FindingRow? {
      assert DetailOk(c, x);
      hide CoreInv, FindingsOk, ProducersOk;
      forall m | m in c.details[x].members
        ensures m.0 in InputsOf(c, x)
      {
        assert Edge(c.core.entities[x].generator, m.0, m.1) in c.core.inputs;
      }
    }
  }

  lemma StepsInsideFull(c: Catalog, policy: Policy)
    requires Inv(c)
    ensures StepEdges(c, policy) <= StepEdges(c, FullProvenance)
    ensures StepEdges(c, Sources) == StepEdges(c, FullProvenance)
  {
    hide Inv, TreeStep, MembersOf, InputsOf;
    forall x
      ensures DerivationStep(c, policy, x) <= DerivationStep(c, FullProvenance, x)
    {
      FindingMembersAreInputs(c, x);
    }
  }

  /** exact is inside input-bytes is inside full-provenance; sources selects what
      full-provenance does; finding-context stays inside full-provenance. */
  lemma PoliciesAreOrdered(c: Catalog, s: set<Id>)
    requires Inv(c)
    ensures Resolved(c, Exact, s) <= Resolved(c, InputBytes, s) <= Resolved(c, FullProvenance, s)
    ensures Resolved(c, Sources, s) == Resolved(c, FullProvenance, s)
    ensures Resolved(c, FindingContext, s) <= Resolved(c, FullProvenance, s)
  {
    StepsInsideFull(c, InputBytes);
    StepsInsideFull(c, FindingContext);
    hide Inv, StepEdges, Closure;
    var full := StepEdges(c, FullProvenance);
    ClosureMonotone(StepEdges(c, FindingContext), full, s, s);
    forall y | y in Image(StepEdges(c, InputBytes), s)
      ensures y in Closure(full, s)
    {
      var e :| e in StepEdges(c, InputBytes) && e.0 in s && e.1 == y;
      assert e in full && e.0 in Closure(full, s);
    }
  }

  // ---- Stability ----

  lemma StepIsFixed(c: Catalog, d: Catalog, policy: Policy, x: Id)
    requires Inv(c) && Inv(d) && Extends(c, d) && x in c.core.entities
    ensures Step(c, policy, x) == Step(d, policy, x) <= c.core.entities.Keys
  {
    hide TreeStep, MembersOf, InputsOf, OfKinds, Inv;
    InputsAreFixed(c, d, x);
    TreeStepIsFixed(c, d, x);
    MembersAreFixed(c, d, x);
    FindingMembersAreInputs(c, x);
    KindIsFixed(c, d, x);
    hide Extends;
    DerivationIsFixed(c, d, policy, x);
    hide DerivationStep;
  }

  lemma DerivationIsFixed(c: Catalog, d: Catalog, policy: Policy, x: Id)
    requires Inv(c) && Inv(d) && Extends(c, d) && x in c.core.entities
    ensures DerivationStep(c, policy, x) == DerivationStep(d, policy, x) <= InputsOf(c, x)
  {
    hide MembersOf, InputsOf, OfKinds, Inv;
    InputsAreFixed(c, d, x);
    MembersAreFixed(c, d, x);
    FindingMembersAreInputs(c, x);
    KindIsFixed(c, d, x);
    hide Extends;
    KindsAreFixed(c, d, x, {Kind.Object, Kind.Manifest});
    KindsAreFixed(c, d, x, {Kind.Object, Kind.Artifact});
  }

  lemma KindIsFixed(c: Catalog, d: Catalog, x: Id)
    requires Extends(c, d) && x in c.core.entities
    ensures x in d.core.entities && d.core.entities[x] == c.core.entities[x]
  {
  }

  lemma KindsAreFixed(c: Catalog, d: Catalog, x: Id, kinds: set<Kind>)
    requires Inv(c) && Inv(d) && Extends(c, d) && x in c.core.entities
    ensures OfKinds(c, InputsOf(c, x), kinds) == OfKinds(d, InputsOf(d, x), kinds) <= InputsOf(c, x)
  {
    hide InputsOf, Inv;
    InputsAreFixed(c, d, x);
  }

  lemma InputsAreFixed(c: Catalog, d: Catalog, x: Id)
    requires Inv(c) && Inv(d) && Extends(c, d) && x in c.core.entities
    ensures InputsOf(c, x) == InputsOf(d, x) <= c.core.entities.Keys
  {
    hide DetailsOk, FindingsOk, ProducersOk;
    var a := c.core.entities[x].generator;
    assert c.core.activities[a].inputsSealed;
    forall y
      ensures y in InputsOf(c, x) <==> y in InputsOf(d, x)
    {
      if y in InputsOf(d, x) {
        var i :| i in d.core.inputs && i.activity == a && i.entity == y;
        assert i in c.core.inputs;
      }
    }
  }

  lemma TreeStepIsFixed(c: Catalog, d: Catalog, x: Id)
    requires Inv(c) && Inv(d) && Extends(c, d) && x in c.core.entities
    ensures TreeStep(c, x) == TreeStep(d, x) <= c.core.entities.Keys
  {
    hide CoreInv, FindingsOk, ProducersOk, CoreExtends;
    assert x in c.details && DetailOk(c, x);
    if c.details[x].TreeRow? {
      forall y | y in FileIds(c.details[x].entries)
        ensures y in c.core.entities
      {
        var e :| e in c.details[x].entries && e.kind.File? && e.objectId == y;
      }
    }
  }

  lemma MembersAreFixed(c: Catalog, d: Catalog, x: Id)
    requires Inv(c) && Extends(c, d) && x in c.core.entities
    ensures MembersOf(c, x) == MembersOf(d, x)
  {
    hide CoreInv, FindingsOk, ProducersOk, CoreExtends, DetailOk;
  }

  /** The closure of entities that exist now is the same in every later catalog. */
  lemma ResolvedIsFixed(c: Catalog, d: Catalog, policy: Policy, s: set<Id>)
    requires Inv(c) && Inv(d) && Extends(c, d) && s <= c.core.entities.Keys
    ensures Resolved(c, policy, s) == Resolved(d, policy, s) <= c.core.entities.Keys
  {
    hide Inv, Extends, StepEdges, Closure, Image;
    var g, h := StepEdges(c, policy), StepEdges(d, policy);
    StepsAreFixed(c, d, policy);
    ClosuresAgree(g, h, s, c.core.entities.Keys);
    ImagesAgree(g, h, s, c.core.entities.Keys);
  }

  lemma StepsAreFixed(c: Catalog, d: Catalog, policy: Policy)
    requires Inv(c) && Inv(d) && Extends(c, d)
    ensures forall e: (Id, Id) :: e.0 in c.core.entities ==> (e in StepEdges(c, policy) <==> e in StepEdges(d, policy))
    ensures forall e: (Id, Id) :: e in StepEdges(c, policy) ==> e.0 in c.core.entities && e.1 in c.core.entities
  {
    hide Inv, Step;
    forall e: (Id, Id) | e.0 in c.core.entities
      ensures e in StepEdges(c, policy) <==> e in StepEdges(d, policy)
      ensures e in StepEdges(c, policy) ==> e.1 in c.core.entities
    {
      StepIsFixed(c, d, policy, e.0);
      assert e == (e.0, e.1) && e.0 in d.core.entities;
    }
  }

  // ---- The worklist ----

  function TagOf(policy: Policy, otherwise: Tag): Tag {
    match policy
    case Sources => SourceMetadata
    case FindingContext => Context
    case _ => otherwise
  }

  /** The tag in the reason of an entity met while expanding x. */
  ghost predicate TagFits(c: Catalog, policy: Policy, x: Id, y: Id, tag: Tag) {
    || (y in DerivationStep(c, policy, x) && tag == TagOf(policy, if policy.InputBytes? then InputByte else Derived))
    || (y in TreeStep(c, x)
        && ((y == c.details[x].manifest && tag == TagOf(policy, TreeManifest))
            || (y in FileIds(c.details[x].entries) && tag == TagOf(policy, TreeEntryFile))))
  }

  ghost predicate RowsFit(c: Catalog, policy: Policy, x: Id, rows: seq<(Id, Tag)>) {
    forall r :: r in rows ==> r.0 in c.core.entities && TagFits(c, policy, x, r.0, r.1)
  }

  /** The member row the worklist stores for an entity it meets. */
  function MemberOf(c: Catalog, id: Id, reason: Reason): Member
    requires id in c.core.entities
  {
    Member(RefOf(c, id), reason)
  }

  /** seen grows by the given entities, each with a reason that names x; what was there stays. */
  ghost predicate Grown(c: Catalog, policy: Policy, before: map<Id, Member>, after: map<Id, Member>, ids: set<Id>, x: Id) {
    && after.Keys == before.Keys + ids
    && (forall y :: y in before ==> y in after && after[y] == before[y])
    && (forall y :: y in after && y !in before ==>
          y in c.core.entities && after[y].ref == RefOf(c, y) && after[y].reason.From? && after[y].reason.via == x
          && TagFits(c, policy, x, y, after[y].reason.tag))
  }

  /** The entities met by a query for the first time. */
  ghost predicate AddedAre(c: Catalog, before: map<Id, Member>, after: map<Id, Member>, added: seq<Ref>) {
    forall r: Ref :: r in added <==> r.id in after && r.id !in before && r.id in c.core.entities && r == RefOf(c, r.id)
  }

  function RowIds(rows: seq<(Id, Tag)>): set<Id> {
    set r | r in rows :: r.0
  }

  lemma RowIdsAppend(rows: seq<(Id, Tag)>, r: (Id, Tag))
    ensures RowIds(rows + [r]) == RowIds(rows) + {r.0}
  {
    assert r in rows + [r];
    assert forall q :: q in rows ==> q in rows + [r];
  }

  lemma FileIdsAppend(entries: seq<TreeEntry>, e: TreeEntry)
    ensures FileIds(entries + [e]) == FileIds(entries) + if e.kind.File? then {e.objectId} else {}
  {
    assert e in entries + [e];
    assert forall q :: q in entries ==> q in entries + [e];
  }

  lemma NoneGrown(c: Catalog, policy: Policy, seen: map<Id, Member>, x: Id)
    ensures Grown(c, policy, seen, seen, RowIds([]), x)
  {
    hide TagFits;
  }

  lemma OneGrown(c: Catalog, policy: Policy, seen: map<Id, Member>, after: map<Id, Member>, ids: set<Id>, x: Id, id: Id, tag: Tag)
    requires Grown(c, policy, seen, after, ids, x) && id in c.core.entities && TagFits(c, policy, x, id, tag)
    ensures id in after ==> Grown(c, policy, seen, after, ids + {id}, x)
    ensures id !in after ==> Grown(c, policy, seen, after[id := MemberOf(c, id, From(tag, x))], ids + {id}, x) && id !in seen
  {
    hide TagFits;
  }

  /** One query's rows: unseen entities get a reason and are returned in row order. */
  method Discover(c: Catalog, policy: Policy, x: Id, rows: seq<(Id, Tag)>, seen: map<Id, Member>) returns (after: map<Id, Member>, added: seq<Ref>)
    requires RowsFit(c, policy, x, rows)
    ensures Grown(c, policy, seen, after, RowIds(rows), x)
    ensures AddedAre(c, seen, after, added)
  {
    hide TagFits, RowIds, Grown, MemberOf;
    after, added := seen, [];
    NoneGrown(c, policy, seen, x);
    var i := 0;
    while i < |rows|
      invariant 0 <= i <= |rows|
      invariant Grown(c, policy, seen, after, RowIds(rows[..i]), x)
      invariant forall y :: y in after && y !in seen ==> y in c.core.entities
      invariant AddedAre(c, seen, after, added)
    {
      assert rows[..i + 1] == rows[..i] + [rows[i]];
      RowIdsAppend(rows[..i], rows[i]);
      var id := rows[i].0;
      OneGrown(c, policy, seen, after, RowIds(rows[..i]), x, id, rows[i].1);
      if id !in after {
        after := after[id := MemberOf(c, id, From(rows[i].1, x))];
        added := added + [RefOf(c, id)];
      }
      i := i + 1;
    }
    assert rows[..i] == rows;
  }

  /** The manifest, then the file objects by ordinal. */
  method TreeRowsOf(c: Catalog, policy: Policy, x: Id) returns (rows: seq<(Id, Tag)>)
    ensures RowIds(rows) == TreeStep(c, x)
    ensures TreeStep(c, x) <= c.core.entities.Keys ==> RowsFit(c, policy, x, rows)
  {
    rows := [];
    if x in c.details && c.details[x].TreeRow? {
      var entries := c.details[x].entries;
      rows := [(c.details[x].manifest, TagOf(policy, TreeManifest))];
      var i := 0;
      while i < |entries|
        invariant 0 <= i <= |entries|
        invariant RowIds(rows) == {c.details[x].manifest} + FileIds(entries[..i])
        invariant forall r :: r in rows ==>
          r.0 in {c.details[x].manifest} + FileIds(entries)
          && (r == (c.details[x].manifest, TagOf(policy, TreeManifest)) || (r.0 in FileIds(entries) && r.1 == TagOf(policy, TreeEntryFile)))
      {
        assert entries[..i + 1] == entries[..i] + [entries[i]];
        FileIdsAppend(entries[..i], entries[i]);
        if entries[i].kind.File? {
          RowIdsAppend(rows, (entries[i].objectId, TagOf(policy, TreeEntryFile)));
          rows := rows + [(entries[i].objectId, TagOf(policy, TreeEntryFile))];
        }
        i := i + 1;
      }
      assert entries[..i] == entries;
    }
  }

  /** The rows of the derivation query, in no promised order. */
  method DerivationRows(c: Catalog, policy: Policy, x: Id) returns (rows: seq<(Id, Tag)>)
    ensures RowIds(rows) == DerivationStep(c, policy, x)
    ensures DerivationStep(c, policy, x) <= c.core.entities.Keys ==> RowsFit(c, policy, x, rows)
  {
    var tag := TagOf(policy, if policy.InputBytes? then InputByte else Derived);
    var rest := DerivationStep(c, policy, x);
    rows := [];
    while rest != {}
      invariant rest <= DerivationStep(c, policy, x)
      invariant RowIds(rows) == DerivationStep(c, policy, x) - rest
      invariant forall r :: r in rows ==> r.0 in DerivationStep(c, policy, x) && r.1 == tag
      decreases rest
    {
      var y :| y in rest;
      RowIdsAppend(rows, (y, tag));
      rows := rows + [(y, tag)];
      rest := rest - {y};
    }
  }

  /** Members reached so far: the selected ones, and others each one step from its via. rank
      counts steps back to a selected member. */
  ghost predicate Reached(c: Catalog, policy: Policy, s: set<Id>, seen: map<Id, Member>, rank: map<Id, nat>) {
    && rank.Keys == seen.Keys && s <= seen.Keys
    && (forall y :: y in seen ==> y in c.core.entities && seen[y].ref == RefOf(c, y) && (seen[y].reason.Selected? <==> y in s))
    && (forall y :: y in seen && y !in s ==> Follows(c, policy, s, seen, rank, y))
  }

  ghost predicate Follows(c: Catalog, policy: Policy, s: set<Id>, seen: map<Id, Member>, rank: map<Id, nat>, y: Id)
    requires y in seen && rank.Keys == seen.Keys && seen[y].reason.From?
  {
    var x := seen[y].reason.via;
    x in seen && rank[x] < rank[y] && TagFits(c, policy, x, y, seen[y].reason.tag) && (Transitive(policy) || x in s)
  }

  /** The chain of reasons from a member back to a selected one, within n steps. */
  predicate HasChain(seen: map<Id, Member>, y: Id, n: nat)
    decreases n
  {
    y in seen && (seen[y].reason.Selected? || (n > 0 && HasChain(seen, seen[y].reason.via, n - 1)))
  }

  lemma {:induction false} ReasonsLeadBack(c: Catalog, policy: Policy, s: set<Id>, seen: map<Id, Member>, rank: map<Id, nat>, y: Id)
    requires Reached(c, policy, s, seen, rank) && y in seen
    ensures HasChain(seen, y, rank[y])
    decreases rank[y]
  {
    if y !in s {
      var x := seen[y].reason.via;
      assert Follows(c, policy, s, seen, rank, y);
      ReasonsLeadBack(c, policy, s, seen, rank, x);
      ChainIsMonotone(seen, x, rank[x], rank[y] - 1);
    }
  }

  lemma {:induction false} ChainIsMonotone(seen: map<Id, Member>, y: Id, m: nat, n: nat)
    requires HasChain(seen, y, m) && m <= n
    ensures HasChain(seen, y, n)
    decreases m
  {
    if m > 0 && !seen[y].reason.Selected? {
      ChainIsMonotone(seen, seen[y].reason.via, m - 1, n - 1);
    }
  }

  /** Every entity to expand has had its steps taken or is still queued. */
  ghost predicate Frontier(c: Catalog, policy: Policy, s: set<Id>, seen: map<Id, Member>, queue: seq<Ref>) {
    && (forall r :: r in queue ==> r.id in seen && r == seen[r.id].ref && (Transitive(policy) || r.id in s))
    && (forall x :: x in seen && (Transitive(policy) || x in s) ==> seen[x].ref in queue || Step(c, policy, x) <= seen.Keys)
  }

  /** The outcome of a resolution: exactly the resolved set, each member with its reason. */
  ghost predicate ResolvedMembers(c: Catalog, policy: Policy, s: set<Id>, seen: map<Id, Member>) {
    && seen.Keys == Resolved(c, policy, s)
    && exists rank {:trigger Reached(c, policy, s, seen, rank)} :: Reached(c, policy, s, seen, rank)
  }

  function RefIdSet(refs: seq<Ref>): set<Id> {
    set r | r in refs :: r.id
  }

  /** The selected members, taken in selection order. */
  method Start(c: Catalog, selected: seq<Ref>) returns (seen: map<Id, Member>)
    ensures seen.Keys == RefIdSet(selected)
    ensures forall y :: y in seen ==> seen[y].ref in selected && seen[y].ref.id == y && seen[y].reason.Selected?
  {
    seen := map[];
    var i := 0;
    while i < |selected|
      invariant 0 <= i <= |selected| && seen.Keys == RefIdSet(selected[..i])
      invariant forall y :: y in seen ==> seen[y].ref in selected && seen[y].ref.id == y && seen[y].reason.Selected?
    {
      assert selected[..i + 1] == selected[..i] + [selected[i]];
      seen := seen[selected[i].id := Member(selected[i], Selected)];
      i := i + 1;
    }
    assert selected[..i] == selected;
  }

  lemma StartReached(c: Catalog, policy: Policy, selected: seq<Ref>, seen: map<Id, Member>) returns (rank: map<Id, nat>)
    requires RefsValid(c, selected) && seen.Keys == RefIdSet(selected)
    requires forall y :: y in seen ==> seen[y].ref in selected && seen[y].ref.id == y && seen[y].reason.Selected?
    ensures Reached(c, policy, RefIdSet(selected), seen, rank) && Frontier(c, policy, RefIdSet(selected), seen, selected)
  {
    hide Step;
    rank := map y | y in seen :: 0;
    forall r | r in selected
      ensures r.id in seen && r == seen[r.id].ref
    {
      assert seen[r.id].ref in selected && c.core.entities[r.id].kind == r.kind;
    }
  }

  lemma ReachedGrows(c: Catalog, policy: Policy, s: set<Id>, seen: map<Id, Member>, rank: map<Id, nat>, x: Id, after: map<Id, Member>)
      returns (next: map<Id, nat>)
    requires (Transitive(policy) || x in s) && Reached(c, policy, s, seen, rank) && x in seen && Grown(c, policy, seen, after, Step(c, policy, x), x)
    ensures Reached(c, policy, s, after, next)
  {
    hide Step;
    next := map y | y in after :: if y in seen then rank[y] else rank[x] + 1;
    forall y | y in after && y !in s
      ensures Follows(c, policy, s, after, next, y)
    {
      if y in seen {
        assert Follows(c, policy, s, seen, rank, y);
      }
    }
  }

  lemma FrontierMoves(c: Catalog, policy: Policy, s: set<Id>, seen: map<Id, Member>, queue: seq<Ref>, after: map<Id, Member>, added: seq<Ref>)
    requires Frontier(c, policy, s, seen, queue) && queue != [] && s <= seen.Keys
    requires forall y :: y in seen ==> seen[y].ref.id == y
    requires Grown(c, policy, seen, after, Step(c, policy, queue[0].id), queue[0].id)
    requires AddedAre(c, seen, after, added)
    ensures Frontier(c, policy, s, after, queue[1..] + if Transitive(policy) then added else [])
  {
    hide Step;
    var rest := queue[1..] + if Transitive(policy) then added else [];
    forall x | x in after && (Transitive(policy) || x in s)
      ensures after[x].ref in rest || Step(c, policy, x) <= after.Keys
    {
      if x in seen && x != queue[0].id && seen[x].ref in queue {
        assert seen[x].ref in queue[1..];
      }
    }
  }

  lemma StepInsideBound(c: Catalog, policy: Policy, s: set<Id>, x: Id)
    requires x in c.core.entities && x in Resolved(c, policy, s) && !policy.OtherPolicy? && !policy.Exact?
    requires Transitive(policy) || x in s
    ensures Step(c, policy, x) <= Resolved(c, policy, s)
  {
    hide Step, Closure;
    forall y | y in Step(c, policy, x)
      ensures y in Resolved(c, policy, s)
    {
      assert (x, y) in StepEdges(c, policy);
    }
  }

  lemma EmptyFrontierIsResolved(c: Catalog, policy: Policy, s: set<Id>, seen: map<Id, Member>)
    requires Frontier(c, policy, s, seen, []) && s <= seen.Keys <= Resolved(c, policy, s)
    requires policy.OtherPolicy? ==> s == {}
    ensures seen.Keys == Resolved(c, policy, s)
  {
    hide Step, Closure;
    forall e | e in StepEdges(c, policy) && e.0 in seen && (Transitive(policy) || e.0 in s)
      ensures e.1 in seen
    {
      assert e.1 in Step(c, policy, e.0);
    }
    if Transitive(policy) {
      ClosureLeast(StepEdges(c, policy), s, seen.Keys);
    }
  }

  lemma TreesHaveTreeRows(c: Catalog, x: Id)
    requires Inv(c) && x in c.core.entities
    ensures c.core.entities[x].kind == SourceTree <==> x in c.details && c.details[x].TreeRow?
  {
    hide CoreInv, FindingsOk, ProducersOk;
    assert DetailOk(c, x);
  }

  /** Both queries of one worklist step, each on the case as it is when the query runs. The
      rows are those of the case when the resolution began. */
  method Expand(c: Catalog, first: Catalog, second: Catalog, policy: Policy, cur: Ref, seen: map<Id, Member>)
      returns (after: map<Id, Member>, added: seq<Ref>)
    requires Inv(c) && cur.id in c.core.entities && cur == RefOf(c, cur.id)
    requires Inv(first) && Extends(c, first) && Inv(second) && Extends(c, second)
    ensures Grown(c, policy, seen, after, Step(c, policy, cur.id), cur.id)
    ensures AddedAre(c, seen, after, added)
  {
    hide Inv, Extends, DerivationStep, TreeStep, Grown, RowIds, RowsFit, RefOf, AddedAre;
    KindIsFixed(c, first, cur.id);
    KindIsFixed(c, second, cur.id);
    TreesHaveTreeRows(first, cur.id);
    StepExists(first, policy, cur.id);
    StepExists(second, policy, cur.id);
    SameRefs(c, first, cur.id);
    var treeRows: seq<(Id, Tag)> := [];
    if cur.kind == SourceTree {
      treeRows := TreeRowsOf(first, policy, cur.id);
    } else {
      RefKind(c, cur.id);
      OnlyTreesHaveTreeSteps(first, policy, cur.id);
    }
    var middle, some := Discover(first, policy, cur.id, treeRows, seen);
    var rows := DerivationRows(second, policy, cur.id);
    var last, more := Discover(second, policy, cur.id, rows, middle);
    TreePartIsFixed(c, first, policy, seen, middle, some, cur.id);
    DerivationPartIsFixed(c, second, policy, middle, last, more, cur.id);
    GrownTwice(c, policy, seen, middle, last, TreeStep(c, cur.id), DerivationStep(c, policy, cur.id), cur.id);
    AddedTwice(c, seen, middle, last, some, more);
    after, added := last, some + more;
  }

  lemma RefKind(c: Catalog, x: Id)
    requires x in c.core.entities
    ensures RefOf(c, x).kind == c.core.entities[x].kind
  {
  }

  lemma SameRefs(c: Catalog, d: Catalog, x: Id)
    requires Extends(c, d) && x in c.core.entities
    ensures x in d.core.entities && RefOf(c, x) == RefOf(d, x)
  {
  }

  lemma AddedTwice(c: Catalog, seen: map<Id, Member>, middle: map<Id, Member>, last: map<Id, Member>, some: seq<Ref>, more: seq<Ref>)
    requires AddedAre(c, seen, middle, some) && AddedAre(c, middle, last, more) && seen.Keys <= middle.Keys <= last.Keys
    ensures AddedAre(c, seen, last, some + more)
  {
    hide RefOf;
  }

  /** What a later case says of the two parts of a step from x. */
  lemma PartsAreFixed(c: Catalog, d: Catalog, policy: Policy, x: Id)
    requires Inv(c) && Inv(d) && Extends(c, d) && x in c.core.entities
    ensures TreeStep(c, x) == TreeStep(d, x) <= c.core.entities.Keys
    ensures DerivationStep(c, policy, x) == DerivationStep(d, policy, x) <= c.core.entities.Keys
    ensures forall y, tag :: TagFits(d, policy, x, y, tag) <==> TagFits(c, policy, x, y, tag)
  {
    hide Inv, Extends, TreeStep, DerivationStep, InputsOf, TagFits;
    DerivationIsFixed(c, d, policy, x);
    InputsAreFixed(c, d, x);
    TreeStepIsFixed(c, d, x);
    DetailIsFixed(c, d, x);
    TagsAreFixed(c, d, policy, x);
  }

  lemma TagsAreFixed(c: Catalog, d: Catalog, policy: Policy, x: Id)
    requires x in c.details && x in d.details && c.details[x] == d.details[x]
    requires DerivationStep(c, policy, x) == DerivationStep(d, policy, x)
    ensures forall y, tag :: TagFits(d, policy, x, y, tag) <==> TagFits(c, policy, x, y, tag)
  {
    hide DerivationStep, FileIds, TagOf;
  }

  lemma DetailIsFixed(c: Catalog, d: Catalog, x: Id)
    requires Inv(c) && Extends(c, d) && x in c.core.entities
    ensures x in c.details && x in d.details && c.details[x] == d.details[x]
  {
    hide CoreInv, FindingsOk, ProducersOk, CoreExtends, DetailOk;
  }

  lemma RefsAreFixed(c: Catalog, d: Catalog)
    requires Extends(c, d)
    ensures forall y :: y in c.core.entities ==> y in d.core.entities && RefOf(c, y) == RefOf(d, y)
  {
  }

  /** Rows of a later case that name old entities only are rows of the earlier one. */
  lemma GrownEarlier(c: Catalog, d: Catalog, policy: Policy, before: map<Id, Member>, after: map<Id, Member>, ids: set<Id>, x: Id, added: seq<Ref>)
    requires forall y :: y in c.core.entities ==> y in d.core.entities && RefOf(c, y) == RefOf(d, y)
    requires ids <= c.core.entities.Keys && Grown(d, policy, before, after, ids, x)
    requires forall y, tag :: TagFits(d, policy, x, y, tag) <==> TagFits(c, policy, x, y, tag)
    requires AddedAre(d, before, after, added)
    ensures Grown(c, policy, before, after, ids, x) && AddedAre(c, before, after, added)
  {
    hide TagFits, RefOf;
    forall y | y in after && y !in before
      ensures y in c.core.entities
    {
      assert y in ids;
    }
  }

  lemma TreePartIsFixed(c: Catalog, d: Catalog, policy: Policy, before: map<Id, Member>, after: map<Id, Member>, added: seq<Ref>, x: Id)
    requires Inv(c) && Inv(d) && Extends(c, d) && x in c.core.entities && Grown(d, policy, before, after, TreeStep(d, x), x)
    requires AddedAre(d, before, after, added)
    ensures Grown(c, policy, before, after, TreeStep(c, x), x)
    ensures AddedAre(c, before, after, added)
  {
    hide Inv, Extends, Grown, TreeStep, DerivationStep, RefOf, TagFits, AddedAre;
    PartsAreFixed(c, d, policy, x);
    RefsAreFixed(c, d);
    GrownEarlier(c, d, policy, before, after, TreeStep(d, x), x, added);
  }

  lemma DerivationPartIsFixed(c: Catalog, d: Catalog, policy: Policy, before: map<Id, Member>, after: map<Id, Member>, added: seq<Ref>, x: Id)
    requires Inv(c) && Inv(d) && Extends(c, d) && x in c.core.entities && Grown(d, policy, before, after, DerivationStep(d, policy, x), x)
    requires AddedAre(d, before, after, added)
    ensures Grown(c, policy, before, after, DerivationStep(c, policy, x), x)
    ensures AddedAre(c, before, after, added)
  {
    hide Inv, Extends, Grown, TreeStep, DerivationStep, RefOf, TagFits, AddedAre;
    PartsAreFixed(c, d, policy, x);
    RefsAreFixed(c, d);
    GrownEarlier(c, d, policy, before, after, DerivationStep(d, policy, x), x, added);
  }

  lemma StepExists(c: Catalog, policy: Policy, x: Id)
    requires Inv(c) && x in c.core.entities
    ensures TreeStep(c, x) <= c.core.entities.Keys && DerivationStep(c, policy, x) <= c.core.entities.Keys
  {
    hide Inv, DerivationStep, TreeStep;
    ExtendsReflexive(c);
    StepIsFixed(c, c, policy, x);
  }

  lemma OnlyTreesHaveTreeSteps(c: Catalog, policy: Policy, x: Id)
    requires !(x in c.details && c.details[x].TreeRow?)
    ensures TreeStep(c, x) == RowIds([]) && RowsFit(c, policy, x, [])
  {
  }

  lemma GrownTwice(c: Catalog, policy: Policy, seen: map<Id, Member>, middle: map<Id, Member>, last: map<Id, Member>, s: set<Id>, t: set<Id>, x: Id)
    requires Grown(c, policy, seen, middle, s, x) && Grown(c, policy, middle, last, t, x)
    ensures Grown(c, policy, seen, last, s + t, x) && seen.Keys <= middle.Keys <= last.Keys
  {
  }

  /** A step that adds nothing shortens the queue; any other leaves fewer entities unseen. */
  lemma UnseenShrinks(c: Catalog, policy: Policy, seen: map<Id, Member>, after: map<Id, Member>, added: seq<Ref>, x: Id)
    requires Grown(c, policy, seen, after, Step(c, policy, x), x)
    requires AddedAre(c, seen, after, added)
    ensures c.core.entities.Keys - after.Keys <= c.core.entities.Keys - seen.Keys
    ensures c.core.entities.Keys - after.Keys == c.core.entities.Keys - seen.Keys ==> added == []
  {
    hide Step;
    if added != [] {
      var id := added[0].id;
      assert added[0] in added;
      assert id in c.core.entities.Keys - seen.Keys && id !in c.core.entities.Keys - after.Keys;
    }
  }

  lemma HeadOfQueue(c: Catalog, policy: Policy, s: set<Id>, seen: map<Id, Member>, rank: map<Id, nat>, queue: seq<Ref>)
    requires Reached(c, policy, s, seen, rank) && Frontier(c, policy, s, seen, queue) && queue != []
    ensures queue[0].id in seen && queue[0].id in c.core.entities && queue[0] == RefOf(c, queue[0].id)
    ensures Transitive(policy) || queue[0].id in s
    ensures s <= seen.Keys && forall y :: y in seen ==> seen[y].ref.id == y
  {
    hide Step, Follows;
  }

  lemma BoundKept(c: Catalog, policy: Policy, s: set<Id>, seen: map<Id, Member>, after: map<Id, Member>, x: Id)
    requires Grown(c, policy, seen, after, Step(c, policy, x), x)
    requires seen.Keys <= Resolved(c, policy, s) && Step(c, policy, x) <= Resolved(c, policy, s)
    ensures after.Keys <= Resolved(c, policy, s)
  {
    hide Step, Resolved;
  }

  lemma SelectedAreResolved(c: Catalog, policy: Policy, s: set<Id>)
    ensures s <= Resolved(c, policy, s) && (policy.Exact? ==> Resolved(c, policy, s) == s)
  {
    hide Closure, StepEdges;
  }

  lemma ReachedHasSelected(c: Catalog, policy: Policy, s: set<Id>, seen: map<Id, Member>, rank: map<Id, nat>)
    requires Reached(c, policy, s, seen, rank)
    ensures s <= seen.Keys
  {
    hide Follows;
  }

  lemma NothingSelected(selected: seq<Ref>)
    ensures selected == [] ==> RefIdSet(selected) == {}
  {
  }

  lemma ReachedIsOutcome(c: Catalog, policy: Policy, s: set<Id>, seen: map<Id, Member>, rank: map<Id, nat>)
    requires Reached(c, policy, s, seen, rank) && seen.Keys == Resolved(c, policy, s)
    ensures ResolvedMembers(c, policy, s, seen)
  {
    hide Reached, Resolved;
  }

  /** The case as each query of a resolution finds it; writers may have extended it in between. */
  ghost predicate LaterReads(c: Catalog, cases: nat -> Catalog) {
    forall n :: Inv(cases(n)) && Extends(c, cases(n))
  }

  /** resolveClosure before its final sort. No transaction spans its queries: the n-th reads the
      case as cases(n), yet the outcome is that of the case in which the selection was loaded. */
  method Resolve(c: Catalog, cases: nat -> Catalog, selected: seq<Ref>, policy: Policy) returns (r: Tx<map<Id, Member>, ()>)
    requires Inv(c) && LaterReads(c, cases) && RefsValid(c, selected)
    ensures policy.OtherPolicy? && selected != [] ==> r == Abort(Invalid)
    ensures !(policy.OtherPolicy? && selected != []) ==>
              r.Commit? && ResolvedMembers(c, policy, RefIdSet(selected), r.state)
  {
    hide Inv, Extends, RefsValid, Step, StepEdges, Closure, Image, Frontier, Grown, Reached, Resolved, RefIdSet;
    ghost var s := RefIdSet(selected);
    var seen := Start(c, selected);
    ghost var rank := StartReached(c, policy, selected, seen);
    SelectedAreResolved(c, policy, s);
    if policy.Exact? {
      ReachedIsOutcome(c, policy, s, seen, rank);
      return Commit(seen, ());
    }
    var queue := selected;
    var n: nat := 0;
    while queue != []
      invariant Reached(c, policy, s, seen, rank) && Frontier(c, policy, s, seen, queue)
      invariant seen.Keys <= Resolved(c, policy, s)
      invariant policy.OtherPolicy? ==> queue == selected
      decreases c.core.entities.Keys - seen.Keys, |queue|
    {
      if policy.OtherPolicy? {
        return Abort(Invalid);
      }
      var cur := queue[0];
      HeadOfQueue(c, policy, s, seen, rank, queue);
      var after, added := Expand(c, cases(n), cases(n + 1), policy, cur, seen);
      n := n + 2;
      FrontierMoves(c, policy, s, seen, queue, after, added);
      StepInsideBound(c, policy, s, cur.id);
      rank := ReachedGrows(c, policy, s, seen, rank, cur.id, after);
      BoundKept(c, policy, s, seen, after, cur.id);
      UnseenShrinks(c, policy, seen, after, added, cur.id);
      queue := queue[1..] + if Transitive(policy) then added else [];
      seen := after;
    }
    assert queue == [];
    ReachedHasSelected(c, policy, s, seen, rank);
    NothingSelected(selected);
    EmptyFrontierIsResolved(c, policy, s, seen);
    ReachedIsOutcome(c, policy, s, seen, rank);
    r := Commit(seen, ());
  }

  lemma TagsMean(c: Catalog, policy: Policy, x: Id, y: Id, tag: Tag)
    requires x in c.core.entities && TagFits(c, policy, x, y, tag) && !policy.OtherPolicy? && !policy.Exact?
    ensures ReasonHolds(c, policy, x, y, tag)
  {
    StepMeans(c, policy, x, y);
    InputsMean(c, x, y);
    TreeStepMeans(c, x, y);
    hide InputsOf, MembersOf, UsedFor, ListsMember;
  }

  /** Every member's reason: a selected entity says so; any other names a member it is one
      step of its policy's relation from, and following the names leads to a selected one. */
  lemma ReasonsAreGood(c: Catalog, policy: Policy, s: set<Id>, seen: map<Id, Member>, y: Id)
    requires ResolvedMembers(c, policy, s, seen) && y in seen
    ensures seen[y].reason.Selected? <==> y in s
    ensures y !in s ==> var x := seen[y].reason.via;
                        x in seen && ReasonHolds(c, policy, x, y, seen[y].reason.tag) && (x in s || policy !in {Exact, InputBytes, OtherPolicy})
    ensures exists n :: HasChain(seen, y, n)
  {
    assert policy.Exact? || policy.OtherPolicy? ==> y in s;
    hide Resolved, TagFits, ReasonHolds;
    var rank :| Reached(c, policy, s, seen, rank);
    ReasonsLeadBack(c, policy, s, seen, rank, y);
    if y !in s {
      assert Follows(c, policy, s, seen, rank, y);
      var x := seen[y].reason.via;
      assert x in seen;
      TagsMean(c, policy, x, y, seen[y].reason.tag);
    }
  }

  /** The listing of a member table by (kind, id). */
  ghost predicate Lists(members: seq<Member>, seen: map<Id, Member>) {
    && Sorted((a: Member, b: Member) => RefLess(a.ref, b.ref), members)
    && forall m: Member :: m in members <==> m.ref.id in seen && seen[m.ref.id] == m
  }

  /** sortedProjectionMembers */
  method SortedMembers(seen: map<Id, Member>) returns (members: seq<Member>)
    requires forall y :: y in seen ==> seen[y].ref.id == y
    ensures Lists(members, seen)
  {
    RefLessIsStrictTotal();
    hide RefLess;
    var refs := SortedRows(RefLess, set y | y in seen :: seen[y].ref);
    forall i | 0 <= i < |refs|
      ensures refs[i].id in seen && seen[refs[i].id].ref == refs[i]
    {
      assert refs[i] in Elements(refs);
    }
    members := seq(|refs|, i requires 0 <= i < |refs| => seen[refs[i].id]);
    forall m: Member | m.ref.id in seen && seen[m.ref.id] == m
      ensures m in members
    {
      assert m.ref in Elements(refs);
      var i :| 0 <= i < |refs| && refs[i] == m.ref;
      assert members[i] == m;
    }
  }

  /** resolveClosure */
  method ResolveClosure(c: Catalog, cases: nat -> Catalog, selected: seq<Ref>, policy: Policy) returns (r: Tx<seq<Member>, ()>)
    requires Inv(c) && LaterReads(c, cases) && RefsValid(c, selected)
    ensures policy.OtherPolicy? && selected != [] ==> r == Abort(Invalid)
    ensures !(policy.OtherPolicy? && selected != []) ==>
              r.Commit? && exists seen {:trigger Lists(r.state, seen)} ::
                ResolvedMembers(c, policy, RefIdSet(selected), seen) && Lists(r.state, seen)
  {
    var resolved := Resolve(c, cases, selected, policy);
    hide Resolved, Follows, Lists;
    if resolved.Commit? {
      var members := SortedMembers(resolved.state);
      r := Commit(members, ());
    } else {
      r := Abort(Invalid);
    }
  }
}
