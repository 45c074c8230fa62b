/** The provenance graph of an entity: a worklist with its own sets of seen entities and seen
    activities, against the ancestor relation the query engine uses. */
module Trace {
  import opened Common
  import opened Order
  import opened Graph
  import opened Provenance
  import opened Catalog
  import opened CatalogInvariants
  import Queries
  import Closures

  datatype TraceEdge =
    | Generated(activity: Id, ref: Ref, role: string)
    | Used(activity: Id, ref: Ref, role: string)

  datatype TraceGraph = TraceGraph(root: Ref, entities: seq<Ref>, activities: seq<Id>, edges: seq<TraceEdge>)

  /** The entity itself and its strict ancestors. */
  function Ancestry(c: Catalog, x: Id): set<Id> {
    {x} + StrictReach(AncestorEdges(c.core), x)
  }

  ghost predicate AllEntities(c: Catalog, ids: set<Id>) {
    ids <= c.core.entities.Keys
  }

  function Generators(c: Catalog, ids: set<Id>): set<Id>
    requires AllEntities(c, ids)
  {
    set x | x in ids :: c.core.entities[x].generator
  }

  /** The edges a trace over these entities and activities must show. */
  ghost predicate Shows(c: Catalog, ids: set<Id>, acts: set<Id>, e: TraceEdge) {
    && e.ref.id in c.core.entities && e.ref == RefOf(c, e.ref.id)
    && match e
       case Generated(a, ref, role) =>
         ref.id in ids && a == c.core.entities[ref.id].generator
         && ref.id in c.core.outputs && c.core.outputs[ref.id] == Output(a, role)
       case Used(a, ref, role) => a in acts && Edge(a, ref.id, role) in c.core.inputs
  }

  /** A finished trace of x. */
  ghost predicate IsTrace(c: Catalog, x: Id, g: TraceGraph) {
    && AllEntities(c, Ancestry(c, x))
    && Sorted(RefLess, g.entities)
    && (forall r: Ref :: r in g.entities <==> r.id in Ancestry(c, x) && r == RefOf(c, r.id))
    && Sorted(IdLess, g.activities) && Elements(g.activities) == Generators(c, Ancestry(c, x))
    && NoDuplicates(g.edges)
    && (forall e :: e in g.edges <==> Shows(c, Ancestry(c, x), Generators(c, Ancestry(c, x)), e))
  }

  // ---- The worklist ----

  /** Entities listed so far, activities listed so far and the edges shown for them. */
  ghost predicate Progress(c: Catalog, done: set<Id>, acts: set<Id>, entities: seq<Ref>, edges: seq<TraceEdge>) {
    && AllEntities(c, done)
    && acts == Generators(c, done)
    && NoDuplicates(entities) && (forall r: Ref :: r in entities <==> r.id in done && r == RefOf(c, r.id))
    && NoDuplicates(edges) && (forall e :: e in edges <==> Shows(c, done, acts, e))
  }

  /** Everything derived from is listed or queued, and only ancestors are. */
  ghost predicate Pending(c: Catalog, x: Id, done: set<Id>, acts: set<Id>, queue: seq<Ref>) {
    && done <= Ancestry(c, x)
    && (forall r :: r in queue ==> r.id in Ancestry(c, x) && r.id in c.core.entities)
    && (x in done || Queued(queue, x))
    && (forall i :: i in c.core.inputs && i.activity in acts ==> i.entity in done || Queued(queue, i.entity))
  }

  ghost predicate Queued(queue: seq<Ref>, x: Id) {
    exists r :: r in queue && r.id == x
  }

  lemma QueuedAfterPop(queue: seq<Ref>, more: seq<Ref>, x: Id)
    requires queue != [] && Queued(queue, x)
    ensures x == queue[0].id || Queued(queue[1..] + more, x)
  {
    var r :| r in queue && r.id == x;
    assert r == queue[0] || r in queue[1..];
    assert r in queue[1..] ==> r in queue[1..] + more;
  }

  /** The inputs of an activity, as used edges and as references to visit. */
  method UsedRows(c: Catalog, a: Id) returns (edges: seq<TraceEdge>, refs: seq<Ref>)
    requires forall i :: i in c.core.inputs ==> i.entity in c.core.entities
    ensures UsedOf(c, a, edges)
    ensures forall r :: r in refs ==> exists e :: e in edges && e.ref == r
    ensures forall e :: e in edges ==> e.ref in refs
  {
    var rest := set i | i in c.core.inputs && i.activity == a;
    edges, refs := [], [];
    while rest != {}
      invariant forall i :: i in rest ==> i in c.core.inputs && i.activity == a
      invariant NoDuplicates(edges)
      invariant forall e :: e in edges <==>
        e.Used? && e.activity == a && Edge(a, e.ref.id, e.role) in c.core.inputs && Edge(a, e.ref.id, e.role) !in rest && e.ref == RefOf(c, e.ref.id)
      invariant forall r :: r in refs ==> exists e :: e in edges && e.ref == r
      invariant forall e :: e in edges ==> e.ref in refs
      decreases rest
    {
      var i :| i in rest;
      rest := rest - {i};
      var e := Used(a, RefOf(c, i.entity), i.role);
      edges, refs := edges + [e], refs + [e.ref];
    }
  }

  /** Trace. No transaction spans its queries: turn n reads the case as cases(n), yet the graph
      is that of the case in which the root was looked up. */
  method RunTrace(c: Catalog, cases: nat -> Catalog, root: Ref) returns (r: Tx<TraceGraph, ()>)
    requires Inv(c) && Closures.LaterReads(c, cases)
    ensures root.id !in c.core.entities ==> r == Abort(NotFound)
    ensures root.id in c.core.entities ==> r.Commit? && r.state.root == root && IsTrace(c, root.id, r.state)
  {
    hide Inv, Extends, Progress, Pending, StrictReach, AncestorEdges, Shows, UsedOf, RoleOf;
    var n: nat := 0;
    var queue := [root];
    var done: set<Id> := {};
    var acts: set<Id> := {};
    var entities: seq<Ref> := [];
    var edges: seq<TraceEdge> := [];
    if root.id !in c.core.entities {
      return Abort(NotFound);
    }
    Begins(c, root);
    InputsExist(c);
    while queue != []
      invariant Progress(c, done, acts, entities, edges) && Pending(c, root.id, done, acts, queue)
      decreases c.core.activities.Keys - acts, |queue|
    {
      var x := queue[0].id;
      var d := cases(n);
      n := n + 1;
      HeadIsPending(c, root.id, done, acts, queue);
      if x in done {
        SkipSeen(c, root.id, done, acts, queue);
        queue := queue[1..];
      } else {
        EntityIsFixed(c, d, x);
        var a := d.core.entities[x].generator;
        ListEntity(c, done, acts, entities, edges, x);
        entities := entities + [RefOf(d, x)];
        edges := edges + [Generated(a, RefOf(d, x), RoleOf(d, x))];
        var used: seq<TraceEdge> := [];
        var more: seq<Ref> := [];
        if a !in acts {
          InputsExist(d);
          used, more := UsedRows(d, a);
          UsedIsFixed(c, d, x, used);
          ListActivity(c, done, acts, x, entities, edges, used);
          NewActivityShrinks(c, acts, x);
        } else {
          NoActivityToList(c, done, acts, x, entities, edges);
        }
        assert used == [] ==> edges + used == edges;
        edges := edges + used;
        InputsArePending(c, root.id, done, acts, queue, used, more);
        queue, done, acts := queue[1..] + more, done + {x}, acts + {a};
      }
    }
    assert queue == [];
    ProgressShape(c, done, acts, entities, edges);
    NothingPending(c, root.id, done, acts);
    var sorted := SortRefs(entities);
    IdLessIsStrictTotal();
    var activities := SortedRows(IdLess, acts);
    Finished(c, root.id, entities, edges, sorted, activities);
    r := Commit(TraceGraph(root, sorted, activities, edges), ());
  }

  /** sort.Slice on distinct references. */
  method SortRefs(s: seq<Ref>) returns (r: seq<Ref>)
    requires NoDuplicates(s)
    ensures Sorted(RefLess, r) && forall x :: x in r <==> x in s
  {
    RefLessIsStrictTotal();
    r := SortedRows(RefLess, Elements(s));
    assert forall x :: x in r <==> x in Elements(r);
  }

  lemma ProgressShape(c: Catalog, done: set<Id>, acts: set<Id>, entities: seq<Ref>, edges: seq<TraceEdge>)
    requires Progress(c, done, acts, entities, edges)
    ensures AllEntities(c, done) && acts == Generators(c, done) && NoDuplicates(entities)
  {
    hide Shows;
  }

  lemma Finished(c: Catalog, x: Id, entities: seq<Ref>, edges: seq<TraceEdge>, sorted: seq<Ref>, activities: seq<Id>)
    requires AllEntities(c, Ancestry(c, x))
    requires Progress(c, Ancestry(c, x), Generators(c, Ancestry(c, x)), entities, edges)
    requires Sorted(RefLess, sorted) && forall r :: r in sorted <==> r in entities
    requires Sorted(IdLess, activities) && Elements(activities) == Generators(c, Ancestry(c, x))
    ensures IsTrace(c, x, TraceGraph(RefOf(c, x), sorted, activities, edges))
    ensures forall root :: IsTrace(c, x, TraceGraph(root, sorted, activities, edges))
  {
    hide Shows, Ancestry, RefLess, IdLess;
  }

  function RoleOf(c: Catalog, x: Id): string {
    if x in c.core.outputs && x in c.core.entities && c.core.outputs[x].activity == c.core.entities[x].generator
    then c.core.outputs[x].role else ""
  }

  lemma EntityIsFixed(c: Catalog, d: Catalog, x: Id)
    requires Inv(c) && Extends(c, d) && x in c.core.entities
    ensures x in d.core.entities && d.core.entities[x] == c.core.entities[x]
    ensures RefOf(d, x) == RefOf(c, x) && RoleOf(d, x) == RoleOf(c, x)
  {
    hide DetailsOk, FindingsOk, ProducersOk;
  }

  /** The inputs of an activity with an output are read the same at any later time. */
  lemma UsedIsFixed(c: Catalog, d: Catalog, x: Id, used: seq<TraceEdge>)
    requires Inv(c) && Inv(d) && Extends(c, d) && x in c.core.entities && UsedOf(d, c.core.entities[x].generator, used)
    ensures UsedOf(c, c.core.entities[x].generator, used)
  {
    hide DetailsOk, FindingsOk, ProducersOk;
    var a := c.core.entities[x].generator;
    assert c.core.activities[a].inputsSealed;
    forall y, role
      ensures Edge(a, y, role) in d.core.inputs <==> Edge(a, y, role) in c.core.inputs
      ensures Edge(a, y, role) in c.core.inputs ==> y in c.core.entities && y in d.core.entities && RefOf(c, y) == RefOf(d, y)
    {
    }
    hide Inv, Extends, RefOf;
  }

  lemma InputsExist(c: Catalog)
    requires Inv(c)
    ensures forall i :: i in c.core.inputs ==> i.entity in c.core.entities
  {
    hide DetailsOk, FindingsOk, ProducersOk;
  }

  lemma Begins(c: Catalog, root: Ref)
    requires root.id in c.core.entities
    ensures Progress(c, {}, {}, [], []) && Pending(c, root.id, {}, {}, [root])
  {
    hide StrictReach;
    assert root in [root];
  }

  lemma HeadIsPending(c: Catalog, x: Id, done: set<Id>, acts: set<Id>, queue: seq<Ref>)
    requires Pending(c, x, done, acts, queue) && queue != []
    ensures queue[0].id in c.core.entities && queue[0].id in Ancestry(c, x)
  {
    hide StrictReach;
  }

  lemma SkipSeen(c: Catalog, x: Id, done: set<Id>, acts: set<Id>, queue: seq<Ref>)
    requires Pending(c, x, done, acts, queue) && queue != [] && queue[0].id in done
    ensures Pending(c, x, done, acts, queue[1..])
  {
    hide Ancestry, Queued;
    assert queue[1..] + [] == queue[1..];
    forall y | Queued(queue, y)
      ensures y in done || Queued(queue[1..], y)
    {
      QueuedAfterPop(queue, [], y);
    }
  }

  lemma ListEntity(c: Catalog, done: set<Id>, acts: set<Id>, entities: seq<Ref>, edges: seq<TraceEdge>, x: Id)
    requires Inv(c) && Progress(c, done, acts, entities, edges) && x in c.core.entities && x !in done
    ensures ListedEntity(c, done, acts, x, entities + [RefOf(c, x)],
                         edges + [Generated(c.core.entities[x].generator, RefOf(c, x), RoleOf(c, x))])
  {
    assert x in c.core.outputs && c.core.outputs[x] == Output(c.core.entities[x].generator, RoleOf(c, x));
    hide Inv;
    var e := Generated(c.core.entities[x].generator, RefOf(c, x), RoleOf(c, x));
    assert Shows(c, done + {x}, acts, e) && !Shows(c, done, acts, e);
    forall f
      ensures Shows(c, done + {x}, acts, f) <==> Shows(c, done, acts, f) || f == e
    {
    }
  }

  /** Progress, except that the generator of x may not have been listed yet. */
  ghost predicate ListedEntity(c: Catalog, done: set<Id>, acts: set<Id>, x: Id, entities: seq<Ref>, edges: seq<TraceEdge>) {
    && AllEntities(c, done + {x})
    && acts + {c.core.entities[x].generator} == Generators(c, done + {x})
    && NoDuplicates(entities) && (forall r: Ref :: r in entities <==> r.id in done + {x} && r == RefOf(c, r.id))
    && NoDuplicates(edges) && (forall e :: e in edges <==> Shows(c, done + {x}, acts, e))
  }

  ghost predicate UsedOf(c: Catalog, a: Id, used: seq<TraceEdge>) {
    && NoDuplicates(used)
    && forall e :: e in used <==>
         e.Used? && e.activity == a && Edge(a, e.ref.id, e.role) in c.core.inputs
         && e.ref.id in c.core.entities && e.ref == RefOf(c, e.ref.id)
  }

  lemma ListActivity(c: Catalog, done: set<Id>, acts: set<Id>, x: Id, entities: seq<Ref>, edges: seq<TraceEdge>, used: seq<TraceEdge>)
    requires ListedEntity(c, done, acts, x, entities, edges) && c.core.entities[x].generator !in acts
    requires UsedOf(c, c.core.entities[x].generator, used)
    ensures Progress(c, done + {x}, acts + {c.core.entities[x].generator}, entities, edges + used)
  {
    var a := c.core.entities[x].generator;
    forall e
      ensures Shows(c, done + {x}, acts + {a}, e) <==> Shows(c, done + {x}, acts, e) || e in used
      ensures !(Shows(c, done + {x}, acts, e) && e in used)
    {
    }
    hide Shows;
    JoinDistinct(edges, used);
  }

  lemma JoinDistinct<T>(s: seq<T>, t: seq<T>)
    requires NoDuplicates(s) && NoDuplicates(t) && forall x :: x in s ==> x !in t
    ensures NoDuplicates(s + t)
  {
    forall i, j | 0 <= i < |s| && 0 <= j < |t|
      ensures s[i] != t[j]
    {
      assert s[i] in s && t[j] in t;
    }
  }

  lemma NoActivityToList(c: Catalog, done: set<Id>, acts: set<Id>, x: Id, entities: seq<Ref>, edges: seq<TraceEdge>)
    requires ListedEntity(c, done, acts, x, entities, edges) && c.core.entities[x].generator in acts
    ensures Progress(c, done + {x}, acts + {c.core.entities[x].generator}, entities, edges)
  {
    assert acts + {c.core.entities[x].generator} == acts;
  }

  lemma NewActivityShrinks(c: Catalog, acts: set<Id>, x: Id)
    requires Inv(c) && x in c.core.entities && c.core.entities[x].generator !in acts
    ensures c.core.activities.Keys - (acts + {c.core.entities[x].generator}) < c.core.activities.Keys - acts
  {
    hide DetailsOk, FindingsOk, ProducersOk;
    assert c.core.entities[x].generator in c.core.activities.Keys - acts;
  }

  lemma InputsOfAncestor(c: Catalog, x: Id, y: Id, i: Edge)
    requires Inv(c) && x in c.core.entities && y in Ancestry(c, x) && y in c.core.entities
    requires i in c.core.inputs && i.activity == c.core.entities[y].generator
    ensures i.entity in Ancestry(c, x) && i.entity in c.core.entities
  {
    hide DetailsOk, FindingsOk, ProducersOk;
    var g := AncestorEdges(c.core);
    assert (y, i.entity) in g;
    hide AncestorEdges;
    StrictReachStep(g, y, i.entity);
    assert y != x ==> Closed(g, StrictReach(g, x));
  }

  /** The queue after x is listed: its head is gone and the inputs of a new activity are added. */
  lemma InputsArePending(c: Catalog, x: Id, done: set<Id>, acts: set<Id>, queue: seq<Ref>, used: seq<TraceEdge>, more: seq<Ref>)
    requires Inv(c) && Pending(c, x, done, acts, queue) && queue != [] && x in c.core.entities
    requires var a := c.core.entities[queue[0].id].generator;
             if a in acts then more == [] else
               UsedOf(c, a, used) && (forall r :: r in more ==> exists e :: e in used && e.ref == r)
               && (forall e :: e in used ==> e.ref in more)
    ensures Pending(c, x, done + {queue[0].id}, acts + {c.core.entities[queue[0].id].generator}, queue[1..] + more)
  {
    hide Ancestry, Queued, Inv;
    var y := queue[0].id;
    var a, rest := c.core.entities[y].generator, queue[1..] + more;
    InputsExist(c);
    forall r | r in rest
      ensures r.id in Ancestry(c, x) && r.id in c.core.entities
    {
      if r !in queue {
        assert r in more;
        var e :| e in used && e.ref == r;
        InputsOfAncestor(c, x, y, Edge(a, e.ref.id, e.role));
      }
    }
    forall z | Queued(queue, z)
      ensures z == y || Queued(rest, z)
    {
      QueuedAfterPop(queue, more, z);
    }
    forall i | i in c.core.inputs && i.activity in acts + {a}
      ensures i.entity in done + {y} || Queued(rest, i.entity)
    {
      if i.activity !in acts {
        var e := Used(a, RefOf(c, i.entity), i.role);
        assert e in used;
        assert e.ref in rest && e.ref.id == i.entity;
        QueuedBecause(rest, e.ref);
      }
    }
  }

  lemma QueuedBecause(queue: seq<Ref>, r: Ref)
    requires r in queue
    ensures Queued(queue, r.id)
  {
  }

  /** An empty queue means every ancestor is listed. */
  lemma NothingPending(c: Catalog, x: Id, done: set<Id>, acts: set<Id>)
    requires Inv(c) && x in c.core.entities && AllEntities(c, done) && acts == Generators(c, done)
    requires Pending(c, x, done, acts, [])
    ensures done == Ancestry(c, x)
  {
    hide DetailsOk, FindingsOk, ProducersOk, StrictReach;
    var g := AncestorEdges(c.core);
    forall e | e in g && e.0 in done
      ensures e.1 in done
    {
      var i :| i in c.core.inputs && e.0 in c.core.outputs && i.activity == c.core.outputs[e.0].activity && i.entity == e.1;
      assert i.activity in acts;
    }
    hide AncestorEdges;
    ClosureLeast(g, {x}, done);
    ClosureOfOne(g, x);
  }

  // ---- Agreement ----

  /** A trace lists the entity and exactly the strict ancestors that relatedEntityIDs returns,
      although one follows generating_activity_id and the other the output edges. */
  lemma TraceAgreesWithQueries(c: Catalog, x: Id, g: TraceGraph)
    requires Inv(c) && x in c.core.entities && IsTrace(c, x, g)
    ensures forall y :: y in c.core.entities ==>
      (RefOf(c, y) in g.entities <==> y == x || y in Queries.MemberSet(c, Queries.StrictAncestors(x)))
    ensures x !in StrictReach(AncestorEdges(c.core), x)
  {
    hide StrictReach, DetailsOk, FindingsOk, ProducersOk;
    ProvenanceIsAcyclic(c.core, x);
  }

  /** Each listed entity has one generated edge, and each input row of a listed activity one
      used edge. */
  lemma TraceEdgesAreExact(c: Catalog, x: Id, g: TraceGraph, y: Id)
    requires Inv(c) && IsTrace(c, x, g) && y in Ancestry(c, x)
    ensures exists i :: 0 <= i < |g.edges| && IsBirthOf(g.edges[i], y)
    ensures forall i, j :: 0 <= i < |g.edges| && 0 <= j < |g.edges| && IsBirthOf(g.edges[i], y) && IsBirthOf(g.edges[j], y) ==> i == j
    ensures forall e :: e in c.core.inputs && e.activity == c.core.entities[y].generator ==>
      e.entity in c.core.entities && Used(e.activity, RefOf(c, e.entity), e.role) in g.edges
  {
    hide StrictReach, AncestorEdges, DetailsOk, FindingsOk, ProducersOk, Ancestry;
    var birth := Generated(c.core.entities[y].generator, RefOf(c, y), c.core.outputs[y].role);
    assert Shows(c, Ancestry(c, x), Generators(c, Ancestry(c, x)), birth);
    var i :| 0 <= i < |g.edges| && g.edges[i] == birth;
    forall j | 0 <= j < |g.edges| && IsBirthOf(g.edges[j], y)
      ensures j == i
    {
      assert g.edges[j] in g.edges;
      assert g.edges[j] == birth;
    }
    forall e | e in c.core.inputs && e.activity == c.core.entities[y].generator
      ensures Used(e.activity, RefOf(c, e.entity), e.role) in g.edges
    {
      assert e == Edge(e.activity, e.entity, e.role);
      assert Shows(c, Ancestry(c, x), Generators(c, Ancestry(c, x)), Used(e.activity, RefOf(c, e.entity), e.role));
    }
  }

  predicate IsBirthOf(e: TraceEdge, y: Id) {
    e.Generated? && e.ref.id == y
  }

  /** Tracing an entity again, at any later time, gives the same graph but for edge order. */
  lemma TraceIsFixed(c: Catalog, d: Catalog, x: Id, g: TraceGraph, h: TraceGraph)
    requires Inv(c) && Inv(d) && Extends(c, d) && x in c.core.entities && IsTrace(c, x, g) && IsTrace(d, x, h)
    ensures g.entities == h.entities && g.activities == h.activities && forall e :: e in g.edges <==> e in h.edges
  {
    hide Inv, Extends, Shows, Ancestry, RefLess, IdLess, Generators, RefOf;
    AncestryIsFixed(c, d, x);
    var ids := Ancestry(c, x);
    ListedIsFixed(c, d, ids);
    forall e
      ensures Shows(c, ids, Generators(c, ids), e) <==> Shows(d, ids, Generators(d, ids), e)
    {
      ShowsIsFixed(c, d, ids, e);
    }
    RefLessIsStrictTotal();
    IdLessIsStrictTotal();
    SameElements(g.entities, h.entities);
    SortedUnique(RefLess, g.entities, h.entities);
    SortedUnique(IdLess, g.activities, h.activities);
  }

  lemma ListedIsFixed(c: Catalog, d: Catalog, ids: set<Id>)
    requires Extends(c, d) && AllEntities(c, ids)
    ensures AllEntities(d, ids) && Generators(c, ids) == Generators(d, ids)
    ensures forall y :: y in ids ==> RefOf(c, y) == RefOf(d, y)
  {
  }

  lemma SameElements<T>(s: seq<T>, t: seq<T>)
    requires forall x :: x in s <==> x in t
    ensures Elements(s) == Elements(t)
  {
  }

  lemma AncestryIsFixed(c: Catalog, d: Catalog, x: Id)
    requires Inv(c) && Inv(d) && Extends(c, d) && x in c.core.entities
    ensures Ancestry(c, x) == Ancestry(d, x) <= c.core.entities.Keys
  {
    hide StrictReach, AncestorEdges, DetailsOk, FindingsOk, ProducersOk, CoreInv, CoreExtends;
    AncestorsAreFixed(c.core, d.core, x);
    forall y | y in StrictReach(AncestorEdges(c.core), x)
      ensures y in c.core.entities
    {
      AncestorIsOlder(c.core, x, y);
    }
  }

  lemma ShowsIsFixed(c: Catalog, d: Catalog, ids: set<Id>, e: TraceEdge)
    requires Inv(c) && Inv(d) && Extends(c, d) && AllEntities(c, ids) && AllEntities(d, ids)
    requires Generators(c, ids) == Generators(d, ids)
    ensures Shows(c, ids, Generators(c, ids), e) <==> Shows(d, ids, Generators(d, ids), e)
  {
    hide DetailsOk, FindingsOk, ProducersOk;
    var acts := Generators(c, ids);
    if e.Used? && e.activity in acts {
      var y :| y in ids && c.core.entities[y].generator == e.activity;
      assert c.core.activities[e.activity].inputsSealed;
      assert Edge(e.activity, e.ref.id, e.role) in c.core.inputs <==> Edge(e.activity, e.ref.id, e.role) in d.core.inputs;
    }
  }

  /** Full provenance of an entity contains everything its trace lists. */
  lemma FullProvenanceCoversTrace(c: Catalog, x: Id)
    requires Inv(c) && x in c.core.entities
    ensures Ancestry(c, x) <= Closures.Resolved(c, Closures.FullProvenance, {x})
  {
    var g, h := AncestorEdges(c.core), Closures.StepEdges(c, Closures.FullProvenance);
    forall e | e in g
      ensures e in h
    {
      DerivationIsAStep(c, e);
    }
    hide Inv, AncestorEdges, Closures.StepEdges, Closure;
    ClosureOfOne(g, x);
    ClosureMonotone(g, h, {x}, {x});
  }

  lemma DerivationIsAStep(c: Catalog, e: (Id, Id))
    requires Inv(c) && e in AncestorEdges(c.core)
    ensures e in Closures.StepEdges(c, Closures.FullProvenance)
  {
    hide DetailsOk, FindingsOk, ProducersOk, Closures.TreeStep;
    var i :| i in c.core.inputs && e.0 in c.core.outputs && i.activity == c.core.outputs[e.0].activity && i.entity == e.1;
    assert e.1 in Closures.InputsOf(c, e.0);
    assert e == (e.0, e.1);
  }
}
