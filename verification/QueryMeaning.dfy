/** What queries mean, told from the tables of the case alone: kinds, rows and activities for the
    leaves, lines of derivation for the relations. The evaluator's views and sets say the same. */
module QueryMeaning {
  import opened Common
  import opened Order
  import opened Graph
  import opened Provenance
  import opened Catalog
  import opened CatalogInvariants
  import opened Queries
  import opened Paths

  // ---- Validity ----

  /** What is asked of one node of a query. */
  ghost predicate NodeSays(q: Query) {
    match q.op
    case UnknownOp => false
    case And => q.children != []
    case Or => q.children != []
    case Not => |q.children| == 1
    case HasAncestor => |q.children| == 1
    case HasDescendant => |q.children| == 1
    case All => q.children == []
    case ValueIs => q.children == []
    case TimeRange =>
      q.children == [] && q.property != "" && q.start.Some? && q.end.Some? && q.start.value <= q.end.value
    case SizeRange => q.children == [] && 0 <= q.min <= q.max
    case RevisionRange => q.children == [] && 0 <= q.min <= q.max
    case _ => q.children == [] && exists i :: 0 <= i < |q.value| && !IsSpace(q.value[i])
  }

  /** The node that the path of child numbers leads to. */
  function NodeAt(q: Query, path: seq<nat>): Option<Query>
    decreases |path|
  {
    if path == [] then Some(q)
    else if path[0] < |q.children| then NodeAt(q.children[path[0]], path[1..])
    else None
  }

  ghost predicate NodesSay(q: Query, depth: int) {
    forall path :: NodeAt(q, path).Some? ==> NodeSays(NodeAt(q, path).value) && |path| <= depth
  }

  lemma NodeMeans(q: Query)
    ensures NodeOk(q) <==> NodeSays(q)
  {
    hide IsSpace;
  }

  lemma {:induction false} NodesMean(q: Query, depth: int)
    ensures WellFormed(q) && Within(q, depth) <==> NodesSay(q, depth)
    decreases q
  {
    NodeMeans(q);
    hide NodeOk, NodeSays;
    forall i | 0 <= i < |q.children|
      ensures WellFormed(q.children[i]) && Within(q.children[i], depth - 1) <==> NodesSay(q.children[i], depth - 1)
    {
      NodesMean(q.children[i], depth - 1);
    }
    if WellFormed(q) && Within(q, depth) {
      forall path | NodeAt(q, path).Some?
        ensures NodeSays(NodeAt(q, path).value) && |path| <= depth
      {
        if path != [] {
          var i := path[0];
          assert NodesSay(q.children[i], depth - 1);
          assert NodeAt(q.children[i], path[1..]).Some?;
        }
      }
    }
    if NodesSay(q, depth) {
      assert NodeAt(q, []).Some?;
      forall i | 0 <= i < |q.children|
        ensures NodesSay(q.children[i], depth - 1)
      {
        forall path | NodeAt(q.children[i], path).Some?
          ensures NodeSays(NodeAt(q.children[i], path).value) && |path| <= depth - 1
        {
          assert ([i] + path)[1..] == path;
          assert NodeAt(q, [i] + path) == NodeAt(q.children[i], path);
        }
      }
    }
  }

  /** A query is evaluated iff all its nodes are in order, no path is longer than 32 steps and
      there are at most 256 nodes. */
  lemma ValidMeans(q: Query)
    ensures Queries.Valid(q) <==> NodesSay(q, 32) && Size(q) <= 256
  {
    NodesMean(q, 32);
    hide WellFormed, Within, NodesSay, Size;
  }

  // ---- Derivation ----

  /** An activity that used y has made x. */
  ghost predicate Derives(c: Catalog, x: Id, y: Id) {
    exists i :: i in c.core.inputs && i.entity == y && x in c.core.outputs && c.core.outputs[x].activity == i.activity
  }

  /** Each entity of the line is derived from the one before it. */
  ghost predicate Line(c: Catalog, p: seq<Id>) {
    p != [] && forall i :: 0 <= i < |p| - 1 ==> Derives(c, p[i + 1], p[i])
  }

  ghost predicate LineFromTo(c: Catalog, p: seq<Id>, y: Id, x: Id) {
    Line(c, p) && |p| >= 2 && p[0] == y && p[|p| - 1] == x
  }

  /** x comes from y, in one or more derivations. */
  ghost predicate ComesFrom(c: Catalog, x: Id, y: Id) {
    exists p :: LineFromTo(c, p, y, x)
  }

  // ---- Leaves ----

  predicate IsLetter(ch: char) {
    'a' <= ch <= 'z' || 'A' <= ch <= 'Z'
  }

  /** Equal but for the case of ASCII letters. */
  predicate SameButCase(a: string, b: string) {
    |a| == |b| && forall i :: 0 <= i < |a| ==>
      a[i] == b[i] || (IsLetter(a[i]) && IsLetter(b[i]) && (a[i] as int == b[i] as int + 32 || b[i] as int == a[i] as int + 32))
  }

  /** The text from the last dot of the last path element on. */
  ghost predicate ExtensionAt(path: string, k: nat) {
    k < |path| && path[k] == '.' && forall j :: k < j < |path| ==> path[j] != '.' && path[j] != '/'
  }

  ghost predicate HasExtension(path: string, ext: string) {
    exists k: nat :: ExtensionAt(path, k) && SameButCase(path[k..], if ext != "" && ext[0] == '.' then ext else "." + ext)
  }

  /** The time range meets that of the query. */
  predicate Meets(t: Temporal, role: string, start: int, end: int) {
    t.start.Some? && t.end.Some? && (role == "" || role == t.role) && start <= t.end.value && t.start.value <= end
  }

  /** What a leaf says about x. */
  ghost predicate LeafSays(c: Catalog, q: Query, x: Id)
    requires Viewable(c, x)
  {
    var entity, row := c.core.entities[x], c.details[x];
    var activity := c.core.activities[entity.generator];
    var named := Id(q.value);
    match q.op
    case All => true
    case KindIs => KindName(entity.kind) == q.value
    case IdIs => x == named
    case PathGlob => Glob.Means(Glob.Slashed(q.value), Glob.Slashed(if row.ObjectRow? then row.path else ""))
    case HashIs => row.ObjectRow? && row.digest == q.value
    case ActivityIs => entity.generator == named
    case SessionIs => activity.session == q.value
    case ArtifactTypeIs => row.ArtifactRow? && row.artifactType == q.value
    case ValueIs => row.ArtifactRow? && q.property in row.values && q.value in row.values[q.property]
    case TimeRange =>
      row.ArtifactRow? && q.property in row.times && q.start.Some? && q.end.Some?
      && exists t :: t in row.times[q.property] && Meets(t, q.role, q.start.value, q.end.value)
    case SchemaIs => entity.schema == q.value
    case MediaTypeIs => SameButCase(entity.mediaType, q.value)
    case ExtensionIs => row.ObjectRow? && HasExtension(Glob.Slashed(row.path), q.value)
    case SizeRange => row.ObjectRow? && q.min <= row.size <= q.max
    case AgentIs => activity.agent == q.value
    case ToolIs => activity.toolName == q.value && (q.role == "" || activity.toolVersion == q.role)
    case RevisionRange => q.min <= entity.created <= q.max
    case AssertionTypeIs => row.AssertionRow? && row.assertionType == q.value
    case InSelection =>
      named in c.details && c.details[named].SelectionRow? && exists r :: r in c.details[named].selected && r.id == x
    case InTree =>
      named in c.details && c.details[named].TreeRow?
      && (x == named || x == c.details[named].manifest
          || exists e :: e in c.details[named].entries && e.kind.File? && e.objectId == x)
    case InEvidence => exists s :: OfEvidence(c, named, s) && (x == s || ComesFrom(c, x, s))
    case InFinding =>
      || (row.FindingRow? && row.finding == named)
      || exists r, m :: r in c.details && c.details[r].FindingRow? && c.details[r].finding == named
                        && m in c.details[r].members && m.0 == x
    case DescendsFrom => x == named || ComesFrom(c, x, named)
    case _ => false
  }

  /** The evidence itself and its objects. */
  ghost predicate OfEvidence(c: Catalog, evidence: Id, s: Id) {
    s == evidence || (evidence in c.details && c.details[evidence].EvidenceRow? && s in c.details[evidence].objects)
  }

  // ---- Queries ----

  /** x was there at the revision. */
  ghost predicate There(c: Catalog, rev: nat, x: Id) {
    x in c.core.entities && c.core.entities[x].created <= rev
  }

  /** What a query says about x at a revision. */
  ghost predicate Says(c: Catalog, rev: nat, q: Query, x: Id)
    requires Viewable(c, x)
    decreases q
  {
    match q.op
    case Not => q.children != [] && !Says(c, rev, q.children[0], x)
    case And => forall i :: 0 <= i < |q.children| ==> Says(c, rev, q.children[i], x)
    case Or => exists i :: 0 <= i < |q.children| && Says(c, rev, q.children[i], x)
    case HasAncestor =>
      q.children != []
      && exists y :: There(c, rev, y) && ComesFrom(c, x, y) && Viewable(c, y) && Says(c, rev, q.children[0], y)
    case HasDescendant =>
      q.children != []
      && exists y :: There(c, rev, y) && ComesFrom(c, y, x) && Viewable(c, y) && Says(c, rev, q.children[0], y)
    case _ => LeafSays(c, q, x)
  }

  /** r is the reference of an entity that was there and that the query selects. */
  ghost predicate Selects(c: Catalog, rev: nat, q: Query, r: Ref) {
    There(c, rev, r.id) && c.core.entities[r.id].kind == r.kind && Viewable(c, r.id) && Says(c, rev, q, r.id)
  }

  // ---- The recursive queries follow lines of derivation ----

  lemma EdgesDerive(c: Catalog, x: Id, y: Id)
    ensures (x, y) in AncestorEdges(c.core) <==> Derives(c, x, y)
    ensures (y, x) in DescendantEdges(c.core) <==> Derives(c, x, y)
  {
    if Derives(c, x, y) {
      var i :| i in c.core.inputs && i.entity == y && x in c.core.outputs && c.core.outputs[x].activity == i.activity;
    }
  }

  lemma DescentIsLines(c: Catalog, y: Id, x: Id)
    ensures x in StrictReach(DescendantEdges(c.core), y) <==> ComesFrom(c, x, y)
  {
    var g := DescendantEdges(c.core);
    StrictReachIsPaths(g, y, x);
    forall a, b
      ensures (a, b) in g <==> Derives(c, b, a)
    {
      EdgesDerive(c, b, a);
    }
    hide StrictReach, DescendantEdges, Derives;
    forall p
      ensures IsPath(g, p) <==> Line(c, p)
    {
    }
    if x in StrictReach(g, y) {
      var p :| IsPath(g, p) && |p| >= 2 && p[0] == y && p[|p| - 1] == x;
      assert LineFromTo(c, p, y, x);
    }
    if ComesFrom(c, x, y) {
      var p :| LineFromTo(c, p, y, x);
      assert IsPath(g, p);
    }
  }

  lemma AncestryIsLines(c: Catalog, x: Id, y: Id)
    ensures y in StrictReach(AncestorEdges(c.core), x) <==> ComesFrom(c, x, y)
  {
    DescentIsLines(c, y, x);
    StrictReachInverse(DescendantEdges(c.core), y, x);
    assert Inverse(DescendantEdges(c.core)) == AncestorEdges(c.core) by {
      forall e
        ensures e in Inverse(DescendantEdges(c.core)) <==> e in AncestorEdges(c.core)
      {
        EdgesDerive(c, e.0, e.1);
        assert e == (e.0, e.1);
        assert e in Inverse(DescendantEdges(c.core)) <==> (e.1, e.0) in DescendantEdges(c.core);
      }
    }
  }

  lemma ClosureIsLines(c: Catalog, s: set<Id>, x: Id)
    ensures x in Closure(DescendantEdges(c.core), s) <==> exists y :: y in s && (x == y || ComesFrom(c, x, y))
  {
    var g := DescendantEdges(c.core);
    if x in Closure(g, s) {
      var p := ClosureHasPath(g, s, x);
      if |p| >= 2 {
        StrictReachIsPaths(g, p[0], x);
        DescentIsLines(c, p[0], x);
      }
      assert p[0] in s && (x == p[0] || ComesFrom(c, x, p[0]));
    }
    if y :| y in s && (x == y || ComesFrom(c, x, y)) {
      DescentIsLines(c, y, x);
      ClosureOfOne(g, y);
      hide StrictReach;
      ClosureMonotone(g, g, {y}, s);
    }
  }

  /** Nothing comes from itself. */
  lemma NothingFromItself(c: Catalog, x: Id)
    requires Inv(c)
    ensures !ComesFrom(c, x, x)
  {
    AncestryIsLines(c, x, x);
    if x in c.core.entities {
      hide StrictReach, DetailsOk, ProducersOk, FindingsOk;
      ProvenanceIsAcyclic(c.core, x);
    } else {
      OutsideDerivesNothing(c, x);
    }
  }

  lemma OutsideDerivesNothing(c: Catalog, x: Id)
    requires Inv(c) && x !in c.core.entities
    ensures !ComesFrom(c, x, x)
  {
    forall y
      ensures !Derives(c, x, y)
    {
      NoOutput(c, x);
    }
    hide Inv, Derives;
    forall p
      ensures !LineFromTo(c, p, x, x)
    {
      assert |p| >= 2 && p[|p| - 1] == x ==> !Derives(c, p[|p| - 2 + 1], p[|p| - 2]);
    }
  }

  lemma NoOutput(c: Catalog, x: Id)
    requires Inv(c) && x !in c.core.entities
    ensures x !in c.core.outputs
  {
    hide DetailsOk, ProducersOk, FindingsOk;
  }

  // ---- The evaluator's leaves ----

  lemma CaseFolds(a: string, b: string)
    ensures EqualFold(a, b) <==> SameButCase(a, b)
  {
  }

  lemma {:induction false} ExtensionIsCut(path: string)
    ensures Extension(path) == "" <==> forall k: nat :: !ExtensionAt(path, k)
    ensures forall k: nat :: ExtensionAt(path, k) ==> Extension(path) == path[k..]
    decreases |path|
  {
    if path != "" {
      var n := |path| - 1;
      ExtensionIsCut(path[..n]);
      assert ExtensionAt(path, n) <==> path[n] == '.';
      if path[n] != '.' && path[n] != '/' {
        forall k: nat
          ensures ExtensionAt(path, k) <==> ExtensionAt(path[..n], k)
        {
          ExtensionOfLonger(path, n, k);
        }
        forall k: nat | ExtensionAt(path, k)
          ensures Extension(path) == path[k..]
        {
          assert path[..n][k..] + [path[n]] == path[k..];
        }
      } else {
        assert forall k: nat :: ExtensionAt(path, k) ==> k == n;
        assert path[n..] == [path[n]];
      }
    }
  }

  lemma ExtensionOfLonger(path: string, n: nat, k: nat)
    requires |path| == n + 1 && path[n] != '.' && path[n] != '/'
    ensures ExtensionAt(path, k) <==> ExtensionAt(path[..n], k)
  {
    if ExtensionAt(path[..n], k) {
      forall j | k < j < |path|
        ensures path[j] != '.' && path[j] != '/'
      {
        assert j < n ==> path[..n][j] == path[j];
      }
    }
    if ExtensionAt(path, k) {
      forall j | k < j < n
        ensures path[..n][j] != '.' && path[..n][j] != '/'
      {
        assert path[..n][j] == path[j];
      }
    }
  }

  lemma ExtensionSays(path: string, ext: string)
    ensures EqualFold(Extension(path), WithDot(ext)) <==> HasExtension(path, ext)
  {
    ExtensionIsCut(path);
    var dotted := if ext != "" && ext[0] == '.' then ext else "." + ext;
    forall s
      ensures EqualFold(s, dotted) <==> SameButCase(s, dotted)
    {
      CaseFolds(s, dotted);
    }
    hide Extension, EqualFold, SameButCase, ExtensionAt;
    if EqualFold(Extension(path), dotted) {
      NothingFoldsToDotted("", dotted);
      var k: nat :| ExtensionAt(path, k);
    }
  }

  lemma NothingFoldsToDotted(s: string, dotted: string)
    requires |dotted| > 0 && s == ""
    ensures !EqualFold(s, dotted)
  {
  }

  /** A leaf on the view of x says what it says on the tables. */
  lemma LeafMeans(c: Catalog, q: Query, x: Id)
    requires Inv(c) && WellFormed(q) && Leaf(q.op) && !IsMembership(q.op) && Viewable(c, x)
    ensures LeafMatches(q, ViewOf(c, x)) <==> LeafSays(c, q, x)
  {
    hide Inv, EqualFold, SameButCase, Extension, WithDot, HasExtension, WellFormed, Glob.Means, Glob.Matches, ComesFrom, Glob.Slashed;
    NodeIsOk(q);
    var v, row := ViewOf(c, x), c.details[x];
    match q.op {
      case PathGlob => Glob.MatcherDecides(Glob.Slashed(q.value), Glob.Slashed(v.path));
      case MediaTypeIs => CaseFolds(v.mediaType, q.value);
      case ExtensionIs =>
        ExtensionSays(Glob.Slashed(v.path), q.value);
        if !row.ObjectRow? {
          NoPathNoExtension(Glob.Slashed(v.path), q.value);
        }
      case _ => ValueIsThere(q);
    }
  }

  lemma NodeIsOk(q: Query)
    requires WellFormed(q)
    ensures NodeOk(q)
  {
  }

  lemma ValueIsThere(q: Query)
    requires NodeOk(q) && Leaf(q.op)
    ensures NeedsValue(q.op) ==> q.value != ""
    ensures q.op.SizeRange? ==> 0 <= q.min <= q.max
    ensures q.op.TimeRange? ==> q.start.Some? && q.end.Some?
  {
  }

  lemma NoPathNoExtension(path: string, ext: string)
    requires path == ""
    ensures !HasExtension(path, ext)
  {
  }

  /** A membership leaf finds x in its set exactly when the tables say so. */
  lemma MembershipMeans(c: Catalog, q: Query, x: Id)
    requires IsMembership(q.op) && Viewable(c, x)
    ensures x in MemberSet(c, KeyOf(q)) <==> LeafSays(c, q, x)
  {
    hide ComesFrom, Closure, DescendantEdges;
    var named := Id(q.value);
    assert x in c.details;
    hide Viewable;
    match q.op {
      case InSelection =>
      case InTree =>
      case InFinding => FindingMembersAre(c, named, x);
      case DescendsFrom => ClosureIsLines(c, {named}, x);
      case InEvidence =>
        ClosureIsLines(c, EvidenceStart(c, named), x);
        forall s
          ensures s in EvidenceStart(c, named) <==> OfEvidence(c, named, s)
        {
        }
        hide EvidenceStart, OfEvidence;
    }
  }

  /** The evaluator's meaning of any query is what the tables say. */
  lemma {:induction false} MatchesIsSays(c: Catalog, rev: nat, q: Query, x: Id)
    requires Inv(c) && WellFormed(q) && Viewable(c, x)
    ensures Matches(c, rev, q, x) <==> Says(c, rev, q, x)
    decreases q
  {
    hide Inv, LeafMatches, LeafSays, ViewOf, MemberSet, Viewable, ComesFrom;
    NodeIsOk(q);
    if IsMembership(q.op) {
      MembershipMeans(c, q, x);
    } else if q.op.And? || q.op.Or? {
      forall i | 0 <= i < |q.children|
        ensures Matches(c, rev, q.children[i], x) <==> Says(c, rev, q.children[i], x)
      {
        MatchesIsSays(c, rev, q.children[i], x);
      }
    } else if q.op.Not? {
      MatchesIsSays(c, rev, q.children[0], x);
    } else if q.op.HasAncestor? || q.op.HasDescendant? {
      RelationMeans(c, rev, q, x);
    } else {
      LeafMeans(c, q, x);
    }
  }

  lemma {:induction false} RelationMeans(c: Catalog, rev: nat, q: Query, x: Id)
    requires Inv(c) && WellFormed(q) && Viewable(c, x) && (q.op.HasAncestor? || q.op.HasDescendant?)
    ensures Matches(c, rev, q, x) <==> Says(c, rev, q, x)
    decreases q, 0
  {
    hide Inv, LeafMatches, LeafSays, ViewOf, MemberSet, ComesFrom, Viewable, Visible, There;
    NodeIsOk(q);
    forall y
      ensures Visible(c, rev, y) <==> There(c, rev, y) && Viewable(c, y)
    {
      VisibleIsThere(c, rev, y);
    }
    forall y
      ensures y in MemberSet(c, StrictAncestors(x)) <==> ComesFrom(c, x, y)
      ensures y in MemberSet(c, StrictDescendants(x)) <==> ComesFrom(c, y, x)
    {
      RelativesAreLines(c, x, y);
    }
    forall y | Viewable(c, y)
      ensures Matches(c, rev, q.children[0], y) <==> Says(c, rev, q.children[0], y)
    {
      MatchesIsSays(c, rev, q.children[0], y);
    }
  }

  lemma VisibleIsThere(c: Catalog, rev: nat, y: Id)
    ensures Visible(c, rev, y) <==> There(c, rev, y) && Viewable(c, y)
  {
  }

  lemma RelativesAreLines(c: Catalog, x: Id, y: Id)
    requires Inv(c)
    ensures y in MemberSet(c, StrictAncestors(x)) <==> ComesFrom(c, x, y)
    ensures y in MemberSet(c, StrictDescendants(x)) <==> ComesFrom(c, y, x)
  {
    hide Inv, StrictReach, AncestorEdges, DescendantEdges, ComesFrom;
    AncestryIsLines(c, x, y);
    DescentIsLines(c, x, y);
    NothingFromItself(c, x);
  }

  /** The answer holds exactly the references of the entities that were there and are selected. */
  lemma AnswerMeans(c: Catalog, rev: nat, q: Query)
    requires Inv(c) && WellFormed(q)
    ensures forall r :: r in Answer(c, rev, q) <==> Selects(c, rev, q, r)
  {
    EntitiesAreViewable(c);
    hide Inv, Matches, Says, WellFormed;
    forall x | Viewable(c, x)
      ensures Matches(c, rev, q, x) <==> Says(c, rev, q, x)
    {
      MatchesIsSays(c, rev, q, x);
    }
    forall r | Selects(c, rev, q, r)
      ensures r in Answer(c, rev, q)
    {
      assert RefOf(c, r.id) == r;
    }
  }
}
