/** Typed queries: which are valid, what they mean at a revision, and why a pinned answer
    does not move while the case grows. */
module Queries {
  import opened Common
  import opened Order
  import opened Graph
  import opened Provenance
  import opened Catalog
  import opened CatalogInvariants
  import opened Paths
  import Glob

  datatype Op =
    | All | And | Or | Not | KindIs | IdIs | PathGlob | HashIs | ActivityIs | SessionIs | ArtifactTypeIs | ValueIs
    | InSelection | InTree | TimeRange | SchemaIs | MediaTypeIs | ExtensionIs | SizeRange | AgentIs | ToolIs
    | InEvidence | InFinding | DescendsFrom | HasAncestor | HasDescendant | RevisionRange | AssertionTypeIs | UnknownOp

  /** Start and end are instants; None stands for text that is not a time. */
  datatype Query = Query(op: Op, children: seq<Query>, value: string, property: string, role: string,
                         min: int, max: int, start: Option<int>, end: Option<int>)

  // ---- Validation ----

  predicate Unary(op: Op) {
    op.Not? || op.HasAncestor? || op.HasDescendant?
  }

  predicate Leaf(op: Op) {
    !Unary(op) && !op.And? && !op.Or? && !op.UnknownOp?
  }

  predicate NeedsValue(op: Op) {
    op.KindIs? || op.IdIs? || op.PathGlob? || op.HashIs? || op.ActivityIs? || op.SessionIs? || op.ArtifactTypeIs?
    || op.InSelection? || op.InTree? || op.SchemaIs? || op.MediaTypeIs? || op.ExtensionIs? || op.AgentIs? || op.ToolIs?
    || op.InEvidence? || op.InFinding? || op.DescendsFrom? || op.AssertionTypeIs?
  }

  /** One node is well formed by itself. */
  predicate NodeOk(q: Query) {
    if Leaf(q.op) then
      && q.children == []
      && (q.op.TimeRange? ==> q.property != "" && q.start.Some? && q.end.Some? && q.start.value <= q.end.value)
      && (q.op.SizeRange? || q.op.RevisionRange? ==> 0 <= q.min <= q.max)
      && (NeedsValue(q.op) ==> !Blank(q.value))
    else if Unary(q.op) then |q.children| == 1
    else !q.op.UnknownOp? && q.children != []
  }

  predicate WellFormed(q: Query) {
    NodeOk(q) && forall i :: 0 <= i < |q.children| ==> WellFormed(q.children[i])
  }

  function Size(q: Query): nat {
    1 + SizeAll(q.children)
  }

  function SizeAll(qs: seq<Query>): nat {
    if qs == [] then 0 else Size(qs[0]) + SizeAll(qs[1..])
  }

  /** No path from the root is longer than the depth limit. */
  predicate Within(q: Query, depth: int) {
    depth >= 0 && forall i :: 0 <= i < |q.children| ==> Within(q.children[i], depth - 1)
  }

  const MAX_NODES := 256
  const MAX_DEPTH := 32

  /** A query the library evaluates. */
  predicate Valid(q: Query) {
    WellFormed(q) && Within(q, MAX_DEPTH) && Size(q) <= MAX_NODES
  }

  /** validateQuery: counts nodes through the whole tree and stops at the first fault. */
  method ValidateQuery(q: Query, depth: nat, nodes: nat) returns (ok: bool, counted: nat)
    requires nodes <= 256
    ensures ok <==> WellFormed(q) && Within(q, 32 - depth) && nodes + Size(q) <= 256
    ensures ok ==> counted == nodes + Size(q)
    decreases q
  {
    counted := nodes + 1;
    if counted > MAX_NODES || depth > MAX_DEPTH {
      return false, counted;
    }
    if !NodeOk(q) {
      return false, counted;
    }
    var i := 0;
    assert q.children[0..] == q.children;
    while i < |q.children|
      invariant 0 <= i <= |q.children| && counted <= MAX_NODES
      invariant nodes + Size(q) == counted + SizeAll(q.children[i..])
      invariant forall j :: 0 <= j < i ==> WellFormed(q.children[j]) && Within(q.children[j], MAX_DEPTH - depth - 1)
    {
      assert q.children[i..][0] == q.children[i] && q.children[i..][1..] == q.children[i + 1..];
      ok, counted := ValidateQuery(q.children[i], depth + 1, counted);
      if !ok {
        return;
      }
      i := i + 1;
    }
    ok := true;
  }

  // ---- Views ----

  /** The row that loadEntityViews joins for an entity. */
  datatype View = View(ref: Ref, activity: Id, session: string, path: string, digest: string, artifactType: string,
                       schema: string, mediaType: string, size: int, agent: string, toolName: string,
                       toolVersion: string, created: nat, assertionType: string,
                       values: map<string, seq<string>>, times: map<string, seq<Temporal>>)

  predicate Viewable(c: Catalog, x: Id) {
    x in c.core.entities && c.core.entities[x].generator in c.core.activities && x in c.details
  }

  function ViewOf(c: Catalog, x: Id): View
    requires Viewable(c, x)
  {
    var e, d := c.core.entities[x], c.details[x];
    var a := c.core.activities[e.generator];
    View(Ref(e.kind, x), e.generator, a.session,
         if d.ObjectRow? then d.path else "", if d.ObjectRow? then d.digest else "",
         if d.ArtifactRow? then d.artifactType else "", e.schema, e.mediaType,
         if d.ObjectRow? then d.size else -1, a.agent, a.toolName, a.toolVersion, e.created,
         if d.AssertionRow? then d.assertionType else "",
         if d.ArtifactRow? then d.values else map[], if d.ArtifactRow? then d.times else map[])
  }

  // ---- What a leaf says about a view ----

  function Lower(ch: char): char {
    if 'A' <= ch <= 'Z' then (ch as int + 32) as char else ch
  }

  predicate EqualFold(a: string, b: string) {
    |a| == |b| && forall i :: 0 <= i < |a| ==> Lower(a[i]) == Lower(b[i])
  }

  /** The suffix from the last dot of the last path element. */
  function Extension(path: string): string {
    if path == "" || path[|path| - 1] == '/' then ""
    else if path[|path| - 1] == '.' then "."
    else
      var rest := Extension(path[..|path| - 1]);
      if rest == "" then "" else rest + [path[|path| - 1]]
  }

  function WithDot(ext: string): string {
    if ext != "" && ext[0] == '.' then ext else "." + ext
  }

  predicate Overlaps(t: Temporal, q: Query) {
    t.start.Some? && t.end.Some? && q.start.Some? && q.end.Some? && (q.role == "" || t.role == q.role)
    && t.end.value >= q.start.value && t.start.value <= q.end.value
  }

  predicate LeafMatches(q: Query, v: View) {
    match q.op
    case All => true
    case KindIs => KindName(v.ref.kind) == q.value
    case IdIs => v.ref.id.text == q.value
    case PathGlob => Glob.Matches(Glob.Slashed(q.value), Glob.Slashed(v.path))
    case HashIs => v.digest == q.value
    case ActivityIs => v.activity.text == q.value
    case SessionIs => v.session == q.value
    case ArtifactTypeIs => v.artifactType == q.value
    case SchemaIs => v.schema == q.value
    case MediaTypeIs => EqualFold(v.mediaType, q.value)
    case ExtensionIs => EqualFold(Extension(Glob.Slashed(v.path)), WithDot(q.value))
    case SizeRange => q.min <= v.size <= q.max
    case AgentIs => v.agent == q.value
    case ToolIs => v.toolName == q.value && (q.role == "" || v.toolVersion == q.role)
    case RevisionRange => q.min <= v.created <= q.max
    case AssertionTypeIs => v.assertionType == q.value
    case ValueIs => q.property in v.values && q.value in v.values[q.property]
    case TimeRange => q.property in v.times && exists t :: t in v.times[q.property] && Overlaps(t, q)
    case _ => false
  }

  // ---- Sets that membership leaves and relations read ----

  /** What a cached set stands for. */
  datatype SetKey =
    | SelectionSet(id: Id) | TreeSet(id: Id) | EvidenceSet(id: Id) | FindingSet(id: Id) | DescendantSet(id: Id)
    | StrictAncestors(id: Id) | StrictDescendants(id: Id)

  function RefIds(refs: seq<Ref>): set<Id> {
    set r | r in refs :: r.id
  }

  /** The files of a tree and its manifest. */
  function TreeMembers(c: Catalog, id: Id): set<Id> {
    if id in c.details && c.details[id].TreeRow? then {id, c.details[id].manifest} + FileIds(c.details[id].entries) else {}
  }

  function EvidenceStart(c: Catalog, id: Id): set<Id> {
    {id} + if id in c.details && c.details[id].EvidenceRow? then c.details[id].objects.Keys else {}
  }

  function FindingMembers(c: Catalog, f: Id): set<Id> {
    (set r | r in c.details && c.details[r].FindingRow? && c.details[r].finding == f)
    + (set r, m | r in c.details && c.details[r].FindingRow? && c.details[r].finding == f && m in c.details[r].members :: m.0)
  }

  /** The set each SQL query of the evaluator returns. None of them looks at a revision. */
  function MemberSet(c: Catalog, k: SetKey): set<Id> {
    match k
    case SelectionSet(id) => if id in c.details && c.details[id].SelectionRow? then RefIds(c.details[id].selected) else {}
    case TreeSet(id) => TreeMembers(c, id)
    case EvidenceSet(id) => Closure(DescendantEdges(c.core), EvidenceStart(c, id))
    case FindingSet(id) => FindingMembers(c, id)
    case DescendantSet(id) => Closure(DescendantEdges(c.core), {id})
    case StrictAncestors(id) => StrictReach(AncestorEdges(c.core), id) - {id}
    case StrictDescendants(id) => StrictReach(DescendantEdges(c.core), id) - {id}
  }

  predicate IsMembership(op: Op) {
    op.InSelection? || op.InTree? || op.InEvidence? || op.InFinding? || op.DescendsFrom?
  }

  function KeyOf(q: Query): SetKey
    requires IsMembership(q.op)
  {
    var id := Id(q.value);
    match q.op
    case InSelection => SelectionSet(id)
    case InTree => TreeSet(id)
    case InEvidence => EvidenceSet(id)
    case InFinding => FindingSet(id)
    case DescendsFrom => DescendantSet(id)
  }

  // ---- Meaning ----

  predicate Visible(c: Catalog, rev: nat, x: Id) {
    Viewable(c, x) && c.core.entities[x].created <= rev
  }

  /** The plain recursive meaning of a query about entity x at a revision. */
  ghost predicate Matches(c: Catalog, rev: nat, q: Query, x: Id)
    requires Viewable(c, x)
    decreases q
  {
    if IsMembership(q.op) then x in MemberSet(c, KeyOf(q))
    else match q.op
    case HasAncestor =>
      q.children != [] && exists y :: y in MemberSet(c, StrictAncestors(x)) && Visible(c, rev, y) && Matches(c, rev, q.children[0], y)
    case HasDescendant =>
      q.children != [] && exists y :: y in MemberSet(c, StrictDescendants(x)) && Visible(c, rev, y) && Matches(c, rev, q.children[0], y)
    case Not => q.children != [] && !Matches(c, rev, q.children[0], x)
    case And => forall i :: 0 <= i < |q.children| ==> Matches(c, rev, q.children[i], x)
    case Or => exists i :: 0 <= i < |q.children| && Matches(c, rev, q.children[i], x)
    case _ => LeafMatches(q, ViewOf(c, x))
  }

  /** Everything a query selects at a revision. */
  ghost function Answer(c: Catalog, rev: nat, q: Query): set<Ref> {
    set x | x in c.core.entities && Visible(c, rev, x) && Matches(c, rev, q, x) :: RefOf(c, x)
  }

  // ---- Pinned answers ----

  /** x is listed by a revision of f. */
  ghost predicate Lists(c: Catalog, f: Id, x: Id) {
    exists r, m :: r in c.details && c.details[r].FindingRow? && c.details[r].finding == f
                   && m in c.details[r].members && m.0 == x
  }

  /** Nothing written between c and d bears on what a leaf says about the entities visible at a
      revision: a finding lists none of them that was not a member, and a selection stored
      since then holds none of them. */
  ghost predicate LeafSettled(c: Catalog, d: Catalog, rev: nat, q: Query) {
    && (q.op.InFinding? ==>
          forall x :: Visible(c, rev, x) && Lists(d, Id(q.value), x) ==> x in MemberSet(c, FindingSet(Id(q.value))))
    && (q.op.InSelection? && Id(q.value) !in c.details ==>
          forall x :: Visible(c, rev, x) ==> x !in MemberSet(d, SelectionSet(Id(q.value))))
  }

  ghost predicate Settled(c: Catalog, d: Catalog, rev: nat, q: Query)
    decreases q
  {
    LeafSettled(c, d, rev, q) && forall i :: 0 <= i < |q.children| ==> Settled(c, d, rev, q.children[i])
  }

  /** A query whose answer can never move: it names no finding, and the selections it names exist. */
  ghost predicate Pinnable(c: Catalog, q: Query)
    decreases q
  {
    && !q.op.InFinding?
    && (q.op.InSelection? ==> Id(q.value) in c.details)
    && forall i :: 0 <= i < |q.children| ==> Pinnable(c, q.children[i])
  }

  lemma {:induction false} PinnableIsSettled(c: Catalog, d: Catalog, rev: nat, q: Query)
    requires Pinnable(c, q)
    ensures Settled(c, d, rev, q)
    decreases q
  {
    hide Visible, MemberSet, Lists;
    forall i | 0 <= i < |q.children|
      ensures Settled(c, d, rev, q.children[i])
    {
      PinnableIsSettled(c, d, rev, q.children[i]);
    }
  }

  lemma FindingMembersAre(c: Catalog, f: Id, x: Id)
    ensures x in FindingMembers(c, f) <==>
      Lists(c, f, x) || (x in c.details && c.details[x].FindingRow? && c.details[x].finding == f)
  {
  }

  /** An answer loses nothing, and gains exactly the old entities that revisions written since
      then list for the first time. */
  lemma FindingMembershipGrows(c: Catalog, d: Catalog, f: Id, x: Id)
    requires Inv(c) && Inv(d) && Extends(c, d) && x in c.core.entities
    ensures x in MemberSet(d, FindingSet(f)) <==> x in MemberSet(c, FindingSet(f)) || Lists(d, f, x)
  {
    FindingMembersAre(c, f, x);
    FindingMembersAre(d, f, x);
    hide FindingMembers, DetailOk, CoreInv, CoreExtends, FindingsOk, ProducersOk;
    assert x in c.details;
    if Lists(c, f, x) {
      var r, m :| r in c.details && c.details[r].FindingRow? && c.details[r].finding == f
                  && m in c.details[r].members && m.0 == x;
      assert r in d.details && d.details[r] == c.details[r];
    }
  }

  lemma EntitiesAreViewable(c: Catalog)
    requires Inv(c)
    ensures forall x :: x in c.core.entities ==> Viewable(c, x)
  {
    hide FindingsOk, ProducersOk;
  }

  lemma ViewIsFixed(c: Catalog, d: Catalog, x: Id)
    requires Inv(c) && Inv(d) && Extends(c, d) && x in c.core.entities
    ensures Viewable(c, x) && Viewable(d, x) && ViewOf(c, x) == ViewOf(d, x)
  {
    hide Inv;
    EntitiesAreViewable(c);
    EntitiesAreViewable(d);
    GeneratorIsFixed(c, d, x);
    hide Extends;
  }

  lemma GeneratorIsFixed(c: Catalog, d: Catalog, x: Id)
    requires Inv(c) && Extends(c, d) && x in c.core.entities
    ensures x in d.core.entities && d.core.entities[x] == c.core.entities[x]
    ensures x in c.details && x in d.details && d.details[x] == c.details[x]
    ensures var g := c.core.entities[x].generator;
            g in c.core.activities && g in d.core.activities && SameActor(c.core.activities[g], d.core.activities[g])
  {
    hide DetailOk, FindingsOk, ProducersOk;
  }

  lemma VisibleIsFixed(c: Catalog, d: Catalog, rev: nat, x: Id)
    requires Inv(c) && Inv(d) && Extends(c, d) && rev <= c.core.revision
    ensures Visible(c, rev, x) <==> Visible(d, rev, x)
    ensures Visible(c, rev, x) ==> x in c.core.entities
  {
    EntitiesAreViewable(c);
    EntitiesAreViewable(d);
    hide CoreInv, DetailsOk, FindingsOk, ProducersOk;
  }

  /** Closures along descent, started from sets that agree on the old entities, agree on them. */
  lemma DescentIsFixed(c: Core, d: Core, s: set<Id>, t: set<Id>, y: Id)
    requires CoreInv(c) && CoreInv(d) && CoreExtends(c, d) && y in c.entities
    requires forall x :: x in c.entities ==> (x in s <==> x in t)
    ensures y in Closure(DescendantEdges(c), s) <==> y in Closure(DescendantEdges(d), t)
  {
    OldDescentStaysOld(c, d);
    var g, h := DescendantEdges(c), DescendantEdges(d);
    hide CoreInv, CoreExtends, DescendantEdges;
    var old1 := Closure(g, s);
    var new1 := (Targets(h) + t) - c.entities.Keys;
    forall e | e in h && e.0 in old1 + new1
      ensures e.1 in old1 + new1
    {
      if e.1 in c.entities {
        assert e in g && e.0 in c.entities;
      } else {
        assert e.1 in Targets(h);
      }
    }
    ClosureLeast(h, t, old1 + new1);
    var old2 := Closure(h, t) + (s - c.entities.Keys);
    forall e | e in g && e.0 in old2
      ensures e.1 in old2
    {
      assert e.0 in c.entities;
    }
    ClosureLeast(g, s, old2);
  }

  lemma OldDescentStaysOld(c: Core, d: Core)
    requires CoreInv(c) && CoreInv(d) && CoreExtends(c, d)
    ensures forall e :: e in DescendantEdges(d) && e.1 in c.entities ==> e in DescendantEdges(c) && e.0 in c.entities
    ensures forall e :: e in DescendantEdges(c) ==> e in DescendantEdges(d) && e.0 in c.entities && e.1 in c.entities
  {
    hide CoreInv, CoreExtends;
    forall x, y
      ensures (x, y) in DescendantEdges(c) <==> (y, x) in AncestorEdges(c)
    {
    }
    forall x, y
      ensures (x, y) in DescendantEdges(d) <==> (y, x) in AncestorEdges(d)
    {
    }
    hide DescendantEdges, AncestorEdges;
    forall e | e in DescendantEdges(d) && e.1 in c.entities
      ensures e in DescendantEdges(c) && e.0 in c.entities
    {
      OldEdgesAreFixed(c, d, e.1, e.0);
      EdgeGoesBack(c, e.1, e.0);
      assert (e.0, e.1) == e;
    }
    forall e | e in DescendantEdges(c)
      ensures e in DescendantEdges(d) && e.0 in c.entities && e.1 in c.entities
    {
      EdgeGoesBack(c, e.1, e.0);
      OldEdgesAreFixed(c, d, e.1, e.0);
      assert (e.0, e.1) == e;
    }
  }

  lemma StrictDescentIsFixed(c: Core, d: Core, x: Id, y: Id)
    requires CoreInv(c) && CoreInv(d) && CoreExtends(c, d) && y in c.entities
    ensures y in StrictReach(DescendantEdges(c), x) <==> y in StrictReach(DescendantEdges(d), x)
  {
    OldDescentStaysOld(c, d);
    var s, t := Image(DescendantEdges(c), {x}), Image(DescendantEdges(d), {x});
    forall z | z in c.entities
      ensures z in s <==> z in t
    {
      assert z in s <==> (x, z) in DescendantEdges(c);
      assert z in t <==> (x, z) in DescendantEdges(d);
    }
    hide CoreInv, CoreExtends;
    DescentIsFixed(c, d, s, t, y);
  }

  /** What a membership leaf or a relation says about an old entity never changes. */
  lemma MembershipIsFixed(c: Catalog, d: Catalog, k: SetKey, y: Id)
    requires Inv(c) && Inv(d) && Extends(c, d) && y in c.core.entities && !k.FindingSet?
    requires k.SelectionSet? ==> k.id in c.details
    requires k.StrictAncestors? ==> k.id in c.core.entities
    ensures y in MemberSet(c, k) <==> y in MemberSet(d, k)
  {
    hide Inv, FileIds, EvidenceStart, DescendantEdges, AncestorEdges, CoreExtends, TreeMembers, FindingMembers, StrictReach;
    match k {
      case SelectionSet(id) => SelectionIsFixed(c, d, id);
      case TreeSet(id) => TreeIsFixed(c, d, id, y);
      case EvidenceSet(id) => EvidenceIsFixed(c, d, id, y);
      case DescendantSet(id) => DescendantsOfIsFixed(c, d, id, y);
      case StrictAncestors(id) => AncestorsOfIsFixed(c, d, id);
      case StrictDescendants(id) => StrictDescendantsOfIsFixed(c, d, id, y);
    }
  }

  lemma SelectionIsFixed(c: Catalog, d: Catalog, id: Id)
    requires Extends(c, d) && id in c.details
    ensures id in d.details && d.details[id] == c.details[id]
  {
    hide CoreExtends;
  }

  lemma DescendantsOfIsFixed(c: Catalog, d: Catalog, id: Id, y: Id)
    requires Inv(c) && Inv(d) && Extends(c, d) && y in c.core.entities
    ensures y in Closure(DescendantEdges(c.core), {id}) <==> y in Closure(DescendantEdges(d.core), {id})
  {
    hide DetailsOk, FindingsOk, ProducersOk, CoreInv, CoreExtends;
    DescentIsFixed(c.core, d.core, {id}, {id}, y);
  }

  lemma AncestorsOfIsFixed(c: Catalog, d: Catalog, id: Id)
    requires Inv(c) && Inv(d) && Extends(c, d) && id in c.core.entities
    ensures StrictReach(AncestorEdges(c.core), id) == StrictReach(AncestorEdges(d.core), id)
  {
    hide DetailsOk, FindingsOk, ProducersOk, CoreInv, CoreExtends;
    AncestorsAreFixed(c.core, d.core, id);
  }

  lemma StrictDescendantsOfIsFixed(c: Catalog, d: Catalog, id: Id, y: Id)
    requires Inv(c) && Inv(d) && Extends(c, d) && y in c.core.entities
    ensures y in StrictReach(DescendantEdges(c.core), id) <==> y in StrictReach(DescendantEdges(d.core), id)
  {
    hide DetailsOk, FindingsOk, ProducersOk, CoreInv, CoreExtends;
    StrictDescentIsFixed(c.core, d.core, id, y);
  }

  /** Objects born with a new entity are new. */
  lemma BornTogetherIsNew(c: Catalog, d: Catalog, x: Id, id: Id)
    requires CoreExtends(c.core, d.core) && RevisionsInRange(c.core) && id !in c.core.entities && BornTogether(d, x, id)
    ensures x !in c.core.entities
  {
  }

  lemma TreeMembersBornTogether(d: Catalog, id: Id)
    requires id in d.details && d.details[id].TreeRow? && id in d.core.entities && DetailOk(d, id)
    ensures forall y :: y in TreeMembers(d, id) && y != id ==> BornTogether(d, y, id)
  {
    hide BornTogether;
    forall y | y in FileIds(d.details[id].entries)
      ensures BornTogether(d, y, id)
    {
      var e :| e in d.details[id].entries && e.kind.File? && e.objectId == y;
    }
  }

  lemma NewTreeHasNewMembers(c: Catalog, d: Catalog, id: Id)
    requires Inv(c) && Inv(d) && Extends(c, d) && id !in c.details && id in d.details && d.details[id].TreeRow?
    ensures forall y :: y in TreeMembers(d, id) ==> y !in c.core.entities
  {
    assert DetailOk(d, id);
    hide FindingsOk, ProducersOk, EdgesMatchEntities, SealSeparates, BornTogether;
    TreeMembersBornTogether(d, id);
    hide TreeMembers, DetailOk;
    forall y | y in TreeMembers(d, id) && y != id
      ensures y !in c.core.entities
    {
      BornTogetherIsNew(c, d, y, id);
    }
  }

  lemma TreeIsFixed(c: Catalog, d: Catalog, id: Id, y: Id)
    requires Inv(c) && Inv(d) && Extends(c, d) && y in c.core.entities
    ensures y in TreeMembers(c, id) <==> y in TreeMembers(d, id)
  {
    hide Inv, CoreExtends;
    if id !in c.details && id in d.details && d.details[id].TreeRow? {
      NewTreeHasNewMembers(c, d, id);
    }
  }

  lemma EvidenceIsFixed(c: Catalog, d: Catalog, id: Id, y: Id)
    requires Inv(c) && Inv(d) && Extends(c, d) && y in c.core.entities
    ensures y in MemberSet(c, EvidenceSet(id)) <==> y in MemberSet(d, EvidenceSet(id))
  {
    hide DetailsOk, FindingsOk, ProducersOk, CoreInv, CoreExtends, EvidenceStart, DescendantEdges;
    forall x | x in c.core.entities
      ensures x in EvidenceStart(c, id) <==> x in EvidenceStart(d, id)
    {
      EvidenceStartIsFixed(c, d, id, x);
    }
    DescentIsFixed(c.core, d.core, EvidenceStart(c, id), EvidenceStart(d, id), y);
  }

  lemma EvidenceStartIsFixed(c: Catalog, d: Catalog, id: Id, x: Id)
    requires Inv(c) && Inv(d) && Extends(c, d) && x in c.core.entities
    ensures x in EvidenceStart(c, id) <==> x in EvidenceStart(d, id)
  {
    hide Inv, CoreExtends;
    if id !in c.details && id in d.details && d.details[id].EvidenceRow? {
      NewEvidenceHasNewObjects(c, d, id);
    }
  }

  lemma NewEvidenceHasNewObjects(c: Catalog, d: Catalog, id: Id)
    requires Inv(c) && Inv(d) && Extends(c, d) && id !in c.details && id in d.details && d.details[id].EvidenceRow?
    ensures forall x :: x in d.details[id].objects ==> x !in c.core.entities
  {
    assert DetailOk(d, id);
    hide FindingsOk, ProducersOk, EdgesMatchEntities, SealSeparates, BornTogether;
    forall x | x in d.details[id].objects
      ensures x !in c.core.entities
    {
      BornTogetherIsNew(c, d, x, id);
    }
  }

  /** What a membership leaf says about a visible entity is the same while it is settled. */
  lemma SettledMembership(c: Catalog, d: Catalog, rev: nat, q: Query, x: Id)
    requires Inv(c) && Inv(d) && Extends(c, d) && IsMembership(q.op) && LeafSettled(c, d, rev, q) && Visible(c, rev, x)
    ensures x in MemberSet(c, KeyOf(q)) <==> x in MemberSet(d, KeyOf(q))
  {
    hide Inv, Extends, Lists;
    assert x in c.core.entities;
    var id := Id(q.value);
    if q.op.InFinding? {
      hide MemberSet, Visible;
      FindingMembershipGrows(c, d, id, x);
    } else if q.op.InSelection? && id !in c.details {
      hide Visible;
    } else {
      hide MemberSet, Visible;
      MembershipIsFixed(c, d, KeyOf(q), x);
    }
  }

  /** Where its findings and unstored selections are settled, the meaning of a query about a
      visible entity is the same in both catalogs, at any nesting of ancestors, descendants
      and negation. */
  lemma {:induction false} SettledMeaning(c: Catalog, d: Catalog, rev: nat, q: Query, x: Id)
    requires Inv(c) && Inv(d) && Extends(c, d) && rev <= c.core.revision
    requires Settled(c, d, rev, q) && Visible(c, rev, x) && Viewable(d, x)
    ensures Matches(c, rev, q, x) <==> Matches(d, rev, q, x)
    decreases q
  {
    hide Inv, Extends, MemberSet, LeafMatches, ViewOf, LeafSettled;
    if IsMembership(q.op) {
      SettledMembership(c, d, rev, q, x);
    } else if Unary(q.op) {
      if q.children != [] {
        if q.op.Not? {
          SettledMeaning(c, d, rev, q.children[0], x);
        } else {
          SettledRelation(c, d, rev, q, x);
        }
      }
    } else if q.op.And? || q.op.Or? {
      forall i | 0 <= i < |q.children|
        ensures Matches(c, rev, q.children[i], x) <==> Matches(d, rev, q.children[i], x)
      {
        SettledMeaning(c, d, rev, q.children[i], x);
      }
    } else {
      ViewIsFixed(c, d, x);
    }
  }

  lemma {:induction false} SettledRelation(c: Catalog, d: Catalog, rev: nat, q: Query, x: Id)
    requires Inv(c) && Inv(d) && Extends(c, d) && rev <= c.core.revision
    requires Settled(c, d, rev, q) && Visible(c, rev, x) && Viewable(d, x)
    requires (q.op.HasAncestor? || q.op.HasDescendant?) && q.children != []
    ensures Matches(c, rev, q, x) <==> Matches(d, rev, q, x)
    decreases q, 0
  {
    hide Inv, Extends, MemberSet, LeafMatches, ViewOf, LeafSettled;
    var k := if q.op.HasAncestor? then StrictAncestors(x) else StrictDescendants(x);
    forall y
      ensures y in MemberSet(c, k) && Visible(c, rev, y) && Matches(c, rev, q.children[0], y)
              <==> y in MemberSet(d, k) && Visible(d, rev, y) && Matches(d, rev, q.children[0], y)
    {
      VisibleIsFixed(c, d, rev, y);
      if Visible(c, rev, y) {
        MembershipIsFixed(c, d, k, y);
        assert Viewable(c, y) && Viewable(d, y) by {
          ViewIsFixed(c, d, y);
        }
        SettledMeaning(c, d, rev, q.children[0], y);
      }
    }
  }

  /** Then the whole pinned answer is the same. */
  lemma SettledAnswer(c: Catalog, d: Catalog, rev: nat, q: Query)
    requires Inv(c) && Inv(d) && Extends(c, d) && rev <= c.core.revision && Settled(c, d, rev, q)
    ensures Answer(c, rev, q) == Answer(d, rev, q)
  {
    hide Inv, Extends, Matches, Settled;
    forall x
      ensures Agree(c, d, rev, q, x)
    {
      VisibleIsFixed(c, d, rev, x);
      if Visible(c, rev, x) {
        ViewIsFixed(c, d, x);
        assert ViewOf(c, x).ref == RefOf(c, x) && ViewOf(d, x).ref == RefOf(d, x);
        SettledMeaning(c, d, rev, q, x);
      }
    }
    SameAnswer(c, d, rev, q);
  }

  /** While other agents extend the case, the answer of a query without finding leaves, whose
      selections are stored, stays at a pinned revision what it was. */
  lemma PinnedAnswer(c: Catalog, d: Catalog, rev: nat, q: Query)
    requires Inv(c) && Inv(d) && Extends(c, d) && rev <= c.core.revision && Pinnable(c, q)
    ensures Answer(c, rev, q) == Answer(d, rev, q)
  {
    hide Inv, Extends, Answer;
    PinnableIsSettled(c, d, rev, q);
    SettledAnswer(c, d, rev, q);
  }

  /** Both catalogs say the same of x at a revision. */
  ghost predicate Agree(c: Catalog, d: Catalog, rev: nat, q: Query, x: Id) {
    (Visible(c, rev, x) <==> Visible(d, rev, x))
    && (Visible(c, rev, x) ==> RefOf(c, x) == RefOf(d, x) && (Matches(c, rev, q, x) <==> Matches(d, rev, q, x)))
  }

  lemma SameAnswer(c: Catalog, d: Catalog, rev: nat, q: Query)
    requires forall x :: Agree(c, d, rev, q, x)
    ensures Answer(c, rev, q) == Answer(d, rev, q)
  {
    hide Matches;
    forall r | r in Answer(c, rev, q)
      ensures r in Answer(d, rev, q)
    {
      var x :| x in c.core.entities && Visible(c, rev, x) && Matches(c, rev, q, x) && RefOf(c, x) == r;
      assert Agree(c, d, rev, q, x);
    }
    forall r | r in Answer(d, rev, q)
      ensures r in Answer(c, rev, q)
    {
      var x :| x in d.core.entities && Visible(d, rev, x) && Matches(d, rev, q, x) && RefOf(d, x) == r;
      assert Agree(c, d, rev, q, x);
    }
  }
}
