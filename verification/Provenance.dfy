/** Activities, entities and the edges between them: the part of the case catalog that
    records who made what from what. Every operation is one `mutate` step; it commits
    revision n + 1 or leaves the tables as they were. */
module Provenance {
  import opened Common
  import opened Graph
  import opened Order

  datatype ActivityState = Running | Succeeded | Failed | Cancelled | Interrupted

  datatype Activity = Activity(
    agent: string, session: string, toolName: string, toolVersion: string,
    state: ActivityState, inputsSealed: bool, sealedRevision: Option<nat>)

  datatype Entity = Entity(kind: Kind, schema: string, mediaType: string, generator: Id, created: nat)

  /** A row of activity_inputs. */
  datatype Edge = Edge(activity: Id, entity: Id, role: string)

  /** A row of activity_outputs; the table is keyed by its UNIQUE column entity_id. */
  datatype Output = Output(activity: Id, role: string)

  datatype Core = Core(
    revision: nat, activities: map<Id, Activity>, entities: map<Id, Entity>,
    inputs: set<Edge>, outputs: map<Id, Output>)

  /** Who runs an activity; fixed when the activity row is inserted. */
  datatype Actor = Actor(agent: string, session: string, toolName: string, toolVersion: string)

  /** A new entity together with the role of its output edge. */
  datatype Birth = Birth(kind: Kind, schema: string, mediaType: string, role: string)

  function NewActivity(who: Actor, state: ActivityState, sealedRevision: Option<nat>): Activity {
    Activity(who.agent, who.session, who.toolName, who.toolVersion, state, sealedRevision.Some?, sealedRevision)
  }

  function Sealed(a: Activity, rev: nat): Activity {
    a.(inputsSealed := true,
       sealedRevision := if a.sealedRevision.Some? then a.sealedRevision else Some(rev))
  }

  /** The catalog right after case creation: one finished activity, no entity. */
  function Genesis(who: Actor, activity: Id): Core {
    Core(1, map[activity := NewActivity(who, Succeeded, None).(inputsSealed := true)], map[], {}, map[])
  }

  // ---- Steps ----

  /** A commit that touches none of these tables: sessions, agents, registration recovery. */
  function Touch(c: Core): Core {
    c.(revision := c.revision + 1)
  }

  function Begin(c: Core, a: Id, who: Actor): Tx<Core, ()> {
    if a in c.activities then Abort(Conflict)
    else Commit(c.(revision := c.revision + 1, activities := c.activities[a := NewActivity(who, Running, None)]), ())
  }

  function Use(c: Core, a: Id, e: Id, role: string): Tx<Core, ()> {
    if a !in c.activities then Abort(NotFound)
    else if !c.activities[a].state.Running? || c.activities[a].inputsSealed then Abort(Conflict)
    else if e !in c.entities || Edge(a, e, role) in c.inputs then Abort(Conflict)
    else Commit(c.(revision := c.revision + 1, inputs := c.inputs + {Edge(a, e, role)}), ())
  }

  function SealInputs(c: Core, a: Id): Tx<Core, ()> {
    if a !in c.activities then Abort(NotFound)
    else if !c.activities[a].state.Running? then Abort(Conflict)
    else if c.activities[a].inputsSealed then Replay(())
    else
      var rev := c.revision + 1;
      Commit(c.(revision := rev,
                activities := c.activities[a := c.activities[a].(inputsSealed := true, sealedRevision := Some(rev))]), ())
  }

  /** The rows every output of a running activity inserts: it seals the inputs first. */
  function Emit(c: Core, a: Id, id: Id, b: Birth): Tx<Core, ()> {
    if a !in c.activities then Abort(NotFound)
    else if !c.activities[a].state.Running? || id in c.entities then Abort(Conflict)
    else
      var rev := c.revision + 1;
      Commit(c.(revision := rev,
                activities := c.activities[a := Sealed(c.activities[a], rev)],
                entities := c.entities[id := Entity(b.kind, b.schema, b.mediaType, a, rev)],
                outputs := c.outputs[id := Output(a, b.role)]), ())
  }

  function Terminate(c: Core, ids: set<Id>, state: ActivityState): Core {
    var rev := c.revision + 1;
    c.(revision := rev,
       activities := map a | a in c.activities ::
         if a in ids then Sealed(c.activities[a], rev).(state := state) else c.activities[a])
  }

  function Finish(c: Core, a: Id, state: ActivityState): Tx<Core, ()> {
    if state.Running? then Abort(Invalid)
    else if a !in c.activities then Abort(Conflict)
    else if c.activities[a].state.Running? then Commit(Terminate(c, {a}, state), ())
    else if c.activities[a].state == state then Replay(())
    else Abort(Conflict)
  }

  /** Recovery ends every named activity or, if one of them is not running, none. */
  function Interrupt(c: Core, ids: set<Id>): Tx<Core, ()> {
    if ids == {} then Abort(Invalid)
    else if exists a :: a in ids && (a !in c.activities || !c.activities[a].state.Running?) then Abort(Conflict)
    else Commit(Terminate(c, ids, Interrupted), ())
  }

  function InputEdges(a: Id, uses: set<(Id, string)>): set<Edge> {
    set u | u in uses :: Edge(a, u.0, u.1)
  }

  function OutputEdges(a: Id, births: map<Id, Birth>): map<Id, Output> {
    map id | id in births :: Output(a, births[id].role)
  }

  function NewEntities(a: Id, births: map<Id, Birth>, rev: nat): map<Id, Entity> {
    map id | id in births :: Entity(births[id].kind, births[id].schema, births[id].mediaType, a, rev)
  }

  /** One transaction that inserts a finished activity, its inputs and all its outputs:
      imports, frozen selections, projections, packages, findings, saved searches, custody. */
  function OneShot(c: Core, a: Id, who: Actor, uses: set<(Id, string)>, births: map<Id, Birth>): Tx<Core, ()> {
    if a in c.activities || births.Keys * c.entities.Keys != {} then Abort(Conflict)
    else if exists u :: u in uses && u.0 !in c.entities then Abort(Conflict)
    else
      var rev := c.revision + 1;
      Commit(Core(rev,
                  c.activities[a := NewActivity(who, Succeeded, Some(rev))],
                  c.entities + NewEntities(a, births, rev),
                  c.inputs + InputEdges(a, uses),
                  c.outputs + OutputEdges(a, births)), ())
  }

  datatype CoreOp =
    | OpTouch
    | OpBegin(activity: Id, who: Actor)
    | OpUse(activity: Id, entity: Id, role: string)
    | OpSeal(activity: Id)
    | OpEmit(activity: Id, id: Id, birth: Birth)
    | OpFinish(activity: Id, state: ActivityState)
    | OpInterrupt(ids: set<Id>)
    | OpOneShot(activity: Id, who: Actor, uses: set<(Id, string)>, births: map<Id, Birth>)

  function Apply(c: Core, op: CoreOp): Tx<Core, ()> {
    match op
    case OpTouch => Commit(Touch(c), ())
    case OpBegin(a, who) => Begin(c, a, who)
    case OpUse(a, e, role) => Use(c, a, e, role)
    case OpSeal(a) => SealInputs(c, a)
    case OpEmit(a, id, b) => Emit(c, a, id, b)
    case OpFinish(a, s) => Finish(c, a, s)
    case OpInterrupt(ids) => Interrupt(c, ids)
    case OpOneShot(a, who, uses, births) => OneShot(c, a, who, uses, births)
  }

  // ---- Invariants ----

  /** Each entity has exactly one output edge and it comes from its generating activity. */
  ghost predicate EdgesMatchEntities(c: Core) {
    && c.outputs.Keys == c.entities.Keys
    && (forall x :: x in c.entities ==>
          c.entities[x].generator == c.outputs[x].activity && c.entities[x].generator in c.activities)
    && (forall i :: i in c.inputs ==> i.activity in c.activities && i.entity in c.entities)
  }

  ghost predicate RevisionsInRange(c: Core) {
    && c.revision >= 1
    && (forall x :: x in c.entities ==> 1 <= c.entities[x].created <= c.revision)
    && (forall a :: a in c.activities && c.activities[a].sealedRevision.Some? ==>
          c.activities[a].inputsSealed && c.activities[a].sealedRevision.value <= c.revision)
    && (forall a :: a in c.activities && !c.activities[a].state.Running? ==> c.activities[a].inputsSealed)
  }

  /** The revision at which an activity is sealed separates its inputs from its outputs. */
  ghost predicate SealSeparates(c: Core)
    requires EdgesMatchEntities(c)
  {
    && (forall x :: x in c.entities ==>
          c.activities[c.entities[x].generator].sealedRevision.Some? &&
          c.activities[c.entities[x].generator].sealedRevision.value <= c.entities[x].created)
    && (forall i :: i in c.inputs && c.activities[i.activity].sealedRevision.Some? ==>
          c.entities[i.entity].created < c.activities[i.activity].sealedRevision.value)
  }

  ghost predicate CoreInv(c: Core) {
    EdgesMatchEntities(c) && RevisionsInRange(c) && SealSeparates(c)
  }

  lemma GenesisInv(who: Actor, a: Id)
    ensures CoreInv(Genesis(who, a))
  {
  }

  /** Every committed step keeps the invariant. */
  lemma ApplyInv(c: Core, op: CoreOp)
    requires CoreInv(c) && Apply(c, op).Commit?
    ensures CoreInv(Apply(c, op).state)
  {
    match op {
      case OpTouch =>
      case OpBegin(a, who) => BeginInv(c, a, who);
      case OpUse(a, e, role) => UseInv(c, a, e, role);
      case OpSeal(a) => SealInv(c, a);
      case OpEmit(a, id, b) => EmitInv(c, a, id, b);
      case OpFinish(a, state) => TerminateInv(c, {a}, state);
      case OpInterrupt(ids) => TerminateInv(c, ids, Interrupted);
      case OpOneShot(a, who, uses, births) => OneShotInv(c, a, who, uses, births);
    }
  }

  lemma BeginInv(c: Core, a: Id, who: Actor)
    requires CoreInv(c) && Begin(c, a, who).Commit?
    ensures CoreInv(Begin(c, a, who).state)
  {
  }

  lemma UseInv(c: Core, a: Id, e: Id, role: string)
    requires CoreInv(c) && Use(c, a, e, role).Commit?
    ensures CoreInv(Use(c, a, e, role).state)
  {
  }

  lemma SealInv(c: Core, a: Id)
    requires CoreInv(c) && SealInputs(c, a).Commit?
    ensures CoreInv(SealInputs(c, a).state)
  {
  }

  lemma EmitInv(c: Core, a: Id, id: Id, b: Birth)
    requires CoreInv(c) && Emit(c, a, id, b).Commit?
    ensures CoreInv(Emit(c, a, id, b).state)
  {
  }

  lemma TerminateInv(c: Core, ids: set<Id>, state: ActivityState)
    requires CoreInv(c) && !state.Running?
    ensures CoreInv(Terminate(c, ids, state))
  {
  }

  lemma OneShotInv(c: Core, a: Id, who: Actor, uses: set<(Id, string)>, births: map<Id, Birth>)
    requires CoreInv(c) && OneShot(c, a, who, uses, births).Commit?
    ensures CoreInv(OneShot(c, a, who, uses, births).state)
  {
    OneShotEdges(c, a, who, uses, births);
    OneShotRevisions(c, a, who, uses, births);
    OneShotSeals(c, a, who, uses, births);
  }

  lemma OneShotEdges(c: Core, a: Id, who: Actor, uses: set<(Id, string)>, births: map<Id, Birth>)
    requires EdgesMatchEntities(c) && OneShot(c, a, who, uses, births).Commit?
    ensures EdgesMatchEntities(OneShot(c, a, who, uses, births).state)
  {
    BirthsAreNew(c, births);
  }

  lemma OneShotRevisions(c: Core, a: Id, who: Actor, uses: set<(Id, string)>, births: map<Id, Birth>)
    requires RevisionsInRange(c) && OneShot(c, a, who, uses, births).Commit?
    ensures RevisionsInRange(OneShot(c, a, who, uses, births).state)
  {
    BirthsAreNew(c, births);
  }

  lemma OneShotSeals(c: Core, a: Id, who: Actor, uses: set<(Id, string)>, births: map<Id, Birth>)
    requires CoreInv(c) && OneShot(c, a, who, uses, births).Commit?
    requires EdgesMatchEntities(OneShot(c, a, who, uses, births).state)
    ensures SealSeparates(OneShot(c, a, who, uses, births).state)
  {
    BirthsAreNew(c, births);
    var d := OneShot(c, a, who, uses, births).state;
    forall i | i in d.inputs && d.activities[i.activity].sealedRevision.Some?
      ensures d.entities[i.entity].created < d.activities[i.activity].sealedRevision.value
    {
      if i !in c.inputs {
        assert i in InputEdges(a, uses);
        assert i.entity in c.entities;
      }
    }
  }

  lemma BirthsAreNew(c: Core, births: map<Id, Birth>)
    requires births.Keys * c.entities.Keys == {}
    ensures forall x :: x in births ==> x !in c.entities
  {
    forall x | x in births
      ensures x !in c.entities
    {
      assert x !in births.Keys * c.entities.Keys;
    }
  }

  /** What a one-shot transaction leaves behind. */
  lemma OneShotResult(c: Core, a: Id, who: Actor, uses: set<(Id, string)>, births: map<Id, Birth>, d: Core)
    requires Apply(c, OpOneShot(a, who, uses, births)) == Commit(d, ())
    ensures d.entities.Keys - c.entities.Keys == births.Keys && d.revision == c.revision + 1
    ensures forall x :: x in c.entities ==> x in d.entities && d.entities[x] == c.entities[x]
    ensures forall x :: x in births ==>
      x in d.entities && x !in c.entities
      && d.entities[x] == Entity(births[x].kind, births[x].schema, births[x].mediaType, a, d.revision)
    ensures forall u :: u in uses ==> u.0 in c.entities && Edge(a, u.0, u.1) in d.inputs
  {
    BirthsAreNew(c, births);
    assert forall u :: u in uses ==> Edge(a, u.0, u.1) in InputEdges(a, uses);
  }

  // ---- Later catalogs extend earlier ones ----

  ghost predicate SameActor(x: Activity, y: Activity) {
    x.agent == y.agent && x.session == y.session && x.toolName == y.toolName && x.toolVersion == y.toolVersion
  }

  ghost predicate ActivitiesKept(c: Core, d: Core) {
    forall a :: a in c.activities ==>
      && a in d.activities
      && SameActor(c.activities[a], d.activities[a])
      && (c.activities[a].inputsSealed ==> d.activities[a].inputsSealed)
      && (c.activities[a].sealedRevision.Some? ==> d.activities[a].sealedRevision == c.activities[a].sealedRevision)
      && (!c.activities[a].state.Running? ==> d.activities[a] == c.activities[a])
  }

  ghost predicate EntitiesKept(c: Core, d: Core) {
    && (forall id :: id in c.entities ==> id in d.entities && d.entities[id] == c.entities[id])
    && (forall id :: id in d.entities && id !in c.entities ==> d.entities[id].created > c.revision)
  }

  ghost predicate EdgesKept(c: Core, d: Core) {
    && c.inputs <= d.inputs
    && (forall x :: x in c.outputs ==> x in d.outputs && d.outputs[x] == c.outputs[x])
    && (forall i :: i in d.inputs && i !in c.inputs ==>
          i.activity !in c.activities || !c.activities[i.activity].inputsSealed)
    && (forall x :: x in d.outputs && x !in c.outputs ==>
          d.outputs[x].activity !in c.activities || c.activities[d.outputs[x].activity].state.Running?)
  }

  /** What every later catalog of the same case keeps. */
  ghost predicate CoreExtends(c: Core, d: Core) {
    c.revision <= d.revision && ActivitiesKept(c, d) && EntitiesKept(c, d) && EdgesKept(c, d)
  }

  /** Every committed step extends the catalog by exactly one revision. */
  lemma ApplyExtends(c: Core, op: CoreOp)
    requires CoreInv(c) && Apply(c, op).Commit?
    ensures CoreExtends(c, Apply(c, op).state) && Apply(c, op).state.revision == c.revision + 1
  {
    match op {
      case OpTouch =>
      case OpBegin(a, who) => BeginExtends(c, a, who);
      case OpUse(a, e, role) =>
      case OpSeal(a) =>
      case OpEmit(a, id, b) => EmitExtends(c, a, id, b);
      case OpFinish(a, state) => TerminateExtends(c, {a}, state);
      case OpInterrupt(ids) => TerminateExtends(c, ids, Interrupted);
      case OpOneShot(a, who, uses, births) => OneShotExtends(c, a, who, uses, births);
    }
  }

  lemma BeginExtends(c: Core, a: Id, who: Actor)
    requires CoreInv(c) && Begin(c, a, who).Commit?
    ensures CoreExtends(c, Begin(c, a, who).state)
  {
  }

  lemma EmitExtends(c: Core, a: Id, id: Id, b: Birth)
    requires CoreInv(c) && Emit(c, a, id, b).Commit?
    ensures CoreExtends(c, Emit(c, a, id, b).state)
  {
  }

  lemma TerminateExtends(c: Core, ids: set<Id>, state: ActivityState)
    requires CoreInv(c)
    requires forall a :: a in ids && a in c.activities ==> c.activities[a].state.Running?
    ensures CoreExtends(c, Terminate(c, ids, state))
  {
  }

  lemma OneShotExtends(c: Core, a: Id, who: Actor, uses: set<(Id, string)>, births: map<Id, Birth>)
    requires CoreInv(c) && OneShot(c, a, who, uses, births).Commit?
    ensures CoreExtends(c, OneShot(c, a, who, uses, births).state)
  {
    BirthsAreNew(c, births);
    OneShotEntities(c, a, who, uses, births);
    OneShotKeepsEdges(c, a, who, uses, births);
    hide InputEdges, OutputEdges, NewEntities;
  }

  lemma OneShotEntities(c: Core, a: Id, who: Actor, uses: set<(Id, string)>, births: map<Id, Birth>)
    requires OneShot(c, a, who, uses, births).Commit? && forall x :: x in births ==> x !in c.entities
    ensures EntitiesKept(c, OneShot(c, a, who, uses, births).state)
  {
    hide InputEdges, OutputEdges;
  }

  lemma OneShotKeepsEdges(c: Core, a: Id, who: Actor, uses: set<(Id, string)>, births: map<Id, Birth>)
    requires CoreInv(c) && OneShot(c, a, who, uses, births).Commit? && forall x :: x in births ==> x !in c.entities
    ensures EdgesKept(c, OneShot(c, a, who, uses, births).state)
  {
    hide NewEntities, RevisionsInRange, SealSeparates;
  }

  lemma CoreExtendsTransitive(c: Core, d: Core, e: Core)
    requires CoreExtends(c, d) && CoreExtends(d, e)
    ensures CoreExtends(c, e)
  {
  }

  // ---- Derivation ----

  /** From each entity to the inputs of the activity named by its output edge. */
  function AncestorEdges(c: Core): Edges {
    set x, i | x in c.outputs && i in c.inputs && i.activity == c.outputs[x].activity :: (x, i.entity)
  }

  function DescendantEdges(c: Core): Edges {
    set x, i | x in c.outputs && i in c.inputs && i.activity == c.outputs[x].activity :: (i.entity, x)
  }

  lemma DescendantEdgesAreInverse(c: Core)
    ensures DescendantEdges(c) == Inverse(AncestorEdges(c))
  {
    forall e | e in DescendantEdges(c)
      ensures e in Inverse(AncestorEdges(c))
    {
      assert (e.1, e.0) in AncestorEdges(c);
    }
  }

  /** Every input is strictly older than every output of the same activity. */
  lemma EdgeGoesBack(c: Core, x: Id, y: Id)
    requires CoreInv(c) && (x, y) in AncestorEdges(c)
    ensures x in c.entities && y in c.entities && c.entities[y].created < c.entities[x].created
  {
    var i :| i in c.inputs && x in c.outputs && i.activity == c.outputs[x].activity && i.entity == y;
  }

  /** Strict ancestors are strictly older. */
  lemma AncestorIsOlder(c: Core, x: Id, y: Id)
    requires CoreInv(c) && y in StrictReach(AncestorEdges(c), x)
    ensures x in c.entities && y in c.entities && c.entities[y].created < c.entities[x].created
  {
    var g := AncestorEdges(c);
    if Image(g, {x}) == {} {
      ClosureLeast(g, {}, {});
      assert false;
    }
    var e :| e in g && e.0 == x;
    EdgeGoesBack(c, e.0, e.1);
    var older := set id | id in c.entities && c.entities[id].created < c.entities[x].created;
    forall e | e in g && (e.0 == x || e.0 in older)
      ensures e.1 in older
    {
      EdgeGoesBack(c, e.0, e.1);
    }
    ClosureLeast(g, Image(g, {x}), older);
  }

  /** Provenance is acyclic. */
  lemma ProvenanceIsAcyclic(c: Core, x: Id)
    requires CoreInv(c)
    ensures x !in StrictReach(AncestorEdges(c), x)
  {
    if x in StrictReach(AncestorEdges(c), x) {
      AncestorIsOlder(c, x, x);
    }
  }

  /** No later step changes where an existing entity came from. */
  lemma OldEdgesAreFixed(c: Core, d: Core, x: Id, y: Id)
    requires CoreInv(c) && CoreInv(d) && CoreExtends(c, d) && x in c.entities
    ensures (x, y) in AncestorEdges(d) <==> (x, y) in AncestorEdges(c)
  {
    if (x, y) in AncestorEdges(d) {
      var i :| i in d.inputs && x in d.outputs && i.activity == d.outputs[x].activity && i.entity == y;
      assert c.activities[c.outputs[x].activity].inputsSealed;
      assert i in c.inputs;
    }
    if (x, y) in AncestorEdges(c) {
      var i :| i in c.inputs && x in c.outputs && i.activity == c.outputs[x].activity && i.entity == y;
      assert i in d.inputs;
    }
  }

  lemma AncestorsAreFixed(c: Core, d: Core, x: Id)
    requires CoreInv(c) && CoreInv(d) && CoreExtends(c, d) && x in c.entities
    ensures StrictReach(AncestorEdges(d), x) == StrictReach(AncestorEdges(c), x)
  {
    var g, h := AncestorEdges(c), AncestorEdges(d);
    assert Image(g, {x}) == Image(h, {x}) by {
      forall y
        ensures y in Image(g, {x}) <==> y in Image(h, {x})
      {
        OldEdgesAreFixed(c, d, x, y);
        assert (x, y) in g <==> y in Image(g, {x});
        assert (x, y) in h <==> y in Image(h, {x});
      }
    }
    var s := StrictReach(g, x);
    forall e | e in h && e.0 in s
      ensures e.1 in s
    {
      AncestorIsOlder(c, x, e.0);
      OldEdgesAreFixed(c, d, e.0, e.1);
    }
    ClosureLeast(h, Image(h, {x}), s);
    forall e | e in g && e.0 in StrictReach(h, x)
      ensures e.1 in StrictReach(h, x)
    {
      EdgeGoesBack(c, e.0, e.1);
      OldEdgesAreFixed(c, d, e.0, e.1);
    }
    ClosureLeast(g, Image(g, {x}), StrictReach(h, x));
  }

  /** Among the entities that existed before, the descendants of any entity are fixed too. */
  lemma DescendantsAreFixed(c: Core, d: Core, x: Id, y: Id)
    requires CoreInv(c) && CoreInv(d) && CoreExtends(c, d) && y in c.entities
    ensures y in StrictReach(DescendantEdges(d), x) <==> y in StrictReach(DescendantEdges(c), x)
  {
    DescendantEdgesAreInverse(c);
    DescendantEdgesAreInverse(d);
    StrictReachInverse(AncestorEdges(c), y, x);
    StrictReachInverse(AncestorEdges(d), y, x);
    AncestorsAreFixed(c, d, y);
  }
}
