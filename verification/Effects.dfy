/** What each step of a case does, told on its tables: when a request commits, which rows it
    leaves behind and that it touches no other; and what follows for who made what from what. */
module Effects {
  import opened Common
  import opened Order
  import opened Graph
  import opened Provenance
  import opened Catalog
  import opened CatalogInvariants

  predicate IsRunning(c: Core, a: Id) {
    a in c.activities && c.activities[a].state == ActivityState.Running
  }

  /** d is c, one revision later, but for the tables named by the flags. */
  ghost predicate Keeps(c: Core, d: Core, activities: bool, entities: bool, inputs: bool) {
    && d.revision == c.revision + 1
    && (activities ==> d.activities == c.activities)
    && (entities ==> d.entities == c.entities && d.outputs == c.outputs)
    && (inputs ==> d.inputs == c.inputs)
  }

  /** Only the row of activity a differs. */
  ghost predicate OnlyActivity(c: Core, d: Core, a: Id) {
    d.activities.Keys == c.activities.Keys + {a} && forall b :: b in c.activities && b != a ==> d.activities[b] == c.activities[b]
  }

  // ---- One activity ----

  /** BeginActivity adds a running activity of its caller, with open inputs. */
  lemma BeginEffect(c: Core, a: Id, who: Actor)
    ensures Apply(c, OpBegin(a, who)).Commit? <==> a !in c.activities
    ensures Apply(c, OpBegin(a, who)).Commit? ==>
      var d := Apply(c, OpBegin(a, who)).state;
      Keeps(c, d, false, true, true) && OnlyActivity(c, d, a)
      && var row := d.activities[a];
         row.agent == who.agent && row.session == who.session && row.toolName == who.toolName && row.toolVersion == who.toolVersion
         && row.state == ActivityState.Running && !row.inputsSealed && row.sealedRevision == None
  {
  }

  /** Use adds exactly one input row, to a running activity that is still open. */
  lemma UseEffect(c: Core, a: Id, e: Id, role: string)
    ensures Apply(c, OpUse(a, e, role)).Commit? <==>
      IsRunning(c, a) && !c.activities[a].inputsSealed && e in c.entities && Edge(a, e, role) !in c.inputs
    ensures Apply(c, OpUse(a, e, role)).Commit? ==>
      var d := Apply(c, OpUse(a, e, role)).state;
      Keeps(c, d, true, true, false) && d.inputs == c.inputs + {Edge(a, e, role)}
  {
  }

  /** SealInputs closes a running activity at the new revision, once. */
  lemma SealEffect(c: Core, a: Id)
    ensures Apply(c, OpSeal(a)).Commit? <==> IsRunning(c, a) && !c.activities[a].inputsSealed
    ensures Apply(c, OpSeal(a)).Replay? <==> IsRunning(c, a) && c.activities[a].inputsSealed
    ensures Apply(c, OpSeal(a)).Commit? ==>
      var d := Apply(c, OpSeal(a)).state;
      Keeps(c, d, false, true, true) && OnlyActivity(c, d, a)
      && SameActor(c.activities[a], d.activities[a]) && d.activities[a].state == ActivityState.Running
      && d.activities[a].inputsSealed && d.activities[a].sealedRevision == Some(d.revision)
  {
  }

  /** d is c with entity id born of the running activity a; a first output closes the activity,
      a later one leaves its row alone. */
  ghost predicate Emitted(c: Core, d: Core, a: Id, id: Id, b: Birth)
    requires a in c.activities
  {
    && Keeps(c, d, false, false, true) && OnlyActivity(c, d, a)
    && SameActor(c.activities[a], d.activities[a]) && d.activities[a].state == ActivityState.Running && d.activities[a].inputsSealed
    && (if c.activities[a].sealedRevision.Some? then d.activities[a].sealedRevision == c.activities[a].sealedRevision
        else d.activities[a].sealedRevision == Some(d.revision))
    && d.entities == c.entities[id := Entity(b.kind, b.schema, b.mediaType, a, d.revision)]
    && d.outputs == c.outputs[id := Output(a, b.role)]
  }

  lemma EmitEffect(c: Core, a: Id, id: Id, b: Birth)
    ensures Apply(c, OpEmit(a, id, b)).Commit? <==> IsRunning(c, a) && id !in c.entities
    ensures Apply(c, OpEmit(a, id, b)).Commit? ==> Emitted(c, Apply(c, OpEmit(a, id, b)).state, a, id, b)
  {
  }

  /** Ending activities gives each named one the outcome and closes it; no other row changes. */
  ghost predicate Ended(c: Core, d: Core, ids: set<Id>, outcome: ActivityState) {
    && Keeps(c, d, false, true, true) && d.activities.Keys == c.activities.Keys
    && (forall b :: b in c.activities && b !in ids ==> d.activities[b] == c.activities[b])
    && forall a :: a in ids && a in c.activities ==>
         SameActor(c.activities[a], d.activities[a]) && d.activities[a].state == outcome && d.activities[a].inputsSealed
         && (if c.activities[a].sealedRevision.Some? then d.activities[a].sealedRevision == c.activities[a].sealedRevision
             else d.activities[a].sealedRevision == Some(d.revision))
  }

  /** Finish stores the outcome asked for; asked again it replays, asked otherwise it refuses. */
  lemma FinishEffect(c: Core, a: Id, outcome: ActivityState)
    ensures var r := Apply(c, OpFinish(a, outcome));
            && (r.Commit? <==> IsRunning(c, a) && outcome != ActivityState.Running)
            && (r.Replay? <==> a in c.activities && c.activities[a].state == outcome && outcome != ActivityState.Running)
            && (r.Commit? ==> Ended(c, r.state, {a}, outcome))
  {
  }

  /** Recovery marks all the named activities interrupted, or none. */
  lemma InterruptEffect(c: Core, ids: set<Id>)
    ensures var r := Apply(c, OpInterrupt(ids));
            && (r.Commit? <==> ids != {} && forall a :: a in ids ==> IsRunning(c, a))
            && (r.Commit? ==> Ended(c, r.state, ids, Interrupted))
            && !r.Replay?
  {
  }

  // ---- One transaction for a whole activity ----

  /** d is c with one finished activity more, its inputs, and exactly the given rows as outputs. */
  ghost predicate Made(c: Catalog, d: Catalog, a: Id, who: Actor, uses: set<(Id, string)>, rows: map<Id, NewRow>) {
    && Keeps(c.core, d.core, false, false, false) && OnlyActivity(c.core, d.core, a)
    && d.core.activities[a] == Activity(who.agent, who.session, who.toolName, who.toolVersion, Succeeded, true, Some(d.core.revision))
    && (forall i :: i in d.core.inputs <==> i in c.core.inputs || (i.activity == a && (i.entity, i.role) in uses))
    && d.core.entities.Keys == c.core.entities.Keys + rows.Keys && d.core.outputs.Keys == c.core.outputs.Keys + rows.Keys
    && d.details.Keys == c.details.Keys + rows.Keys
    && (forall x :: x in rows ==> Born(d, a, x, rows[x]))
    && (forall x :: x in c.core.entities ==> x in d.core.entities && d.core.entities[x] == c.core.entities[x])
    && (forall x :: x in c.core.outputs && x !in rows ==> x in d.core.outputs && d.core.outputs[x] == c.core.outputs[x])
    && (forall x :: x in c.details && x !in rows ==> x in d.details && d.details[x] == c.details[x])
  }

  /** x is an output of a, with its entity row and its typed row. */
  ghost predicate Born(d: Catalog, a: Id, x: Id, row: NewRow) {
    && x in d.core.entities && x in d.core.outputs && x in d.details
    && d.core.entities[x] == Entity(row.birth.kind, row.birth.schema, row.birth.mediaType, a, d.core.revision)
    && d.core.outputs[x] == Output(a, row.birth.role) && d.details[x] == row.detail
  }

  /** The plan is to make these rows in one transaction. */
  ghost predicate Plans(eff: Effect, a: Id, who: Actor, uses: set<(Id, string)>, rows: map<Id, NewRow>) {
    eff.step == OneShotRows(a, who, uses, rows).step && eff.rows == OneShotRows(a, who, uses, rows).rows
  }

  lemma MadeByPlan(c: Catalog, core: Core, eff: Effect, a: Id, who: Actor, uses: set<(Id, string)>, rows: map<Id, NewRow>)
    requires Plans(eff, a, who, uses, rows) && Apply(c.core, eff.step) == Commit(core, ())
    ensures Made(c, Install(c, core, eff), a, who, uses, rows)
  {
    hide Apply, BirthsOf, DetailsOf, Keeps, OnlyActivity;
    BirthsMatch(rows);
    DetailsAfter(c.details, rows);
    MadeActivity(c.core, core, a, who, uses, BirthsOf(rows));
    MadeEntities(c.core, core, a, who, uses, BirthsOf(rows));
  }

  lemma DetailsAfter(details: map<Id, Detail>, rows: map<Id, NewRow>)
    ensures var after := details + DetailsOf(rows);
            && after.Keys == details.Keys + rows.Keys
            && (forall x :: x in rows ==> after[x] == rows[x].detail)
            && forall x :: x in details && x !in rows ==> after[x] == details[x]
  {
  }

  lemma MadeActivity(c: Core, d: Core, a: Id, who: Actor, uses: set<(Id, string)>, births: map<Id, Birth>)
    requires Apply(c, OpOneShot(a, who, uses, births)) == Commit(d, ())
    ensures Keeps(c, d, false, false, false) && OnlyActivity(c, d, a)
    ensures d.activities[a] == Activity(who.agent, who.session, who.toolName, who.toolVersion, Succeeded, true, Some(d.revision))
    ensures forall i :: i in d.inputs <==> i in c.inputs || (i.activity == a && (i.entity, i.role) in uses)
  {
    hide NewEntities, OutputEdges, InputEdges;
    forall i
      ensures i in InputEdges(a, uses) <==> i.activity == a && (i.entity, i.role) in uses
    {
      InputEdge(a, uses, i);
    }
  }

  lemma InputEdge(a: Id, uses: set<(Id, string)>, i: Edge)
    ensures i in InputEdges(a, uses) <==> i.activity == a && (i.entity, i.role) in uses
  {
    assert i == Edge(i.activity, i.entity, i.role);
    assert (i.entity, i.role) in uses && i.activity == a ==> Edge(a, (i.entity, i.role).0, (i.entity, i.role).1) == i;
  }

  lemma MadeEntities(c: Core, d: Core, a: Id, who: Actor, uses: set<(Id, string)>, births: map<Id, Birth>)
    requires Apply(c, OpOneShot(a, who, uses, births)) == Commit(d, ())
    ensures d.entities.Keys == c.entities.Keys + births.Keys && d.outputs.Keys == c.outputs.Keys + births.Keys
    ensures forall x :: x in births ==>
      d.entities[x] == Entity(births[x].kind, births[x].schema, births[x].mediaType, a, d.revision) && d.outputs[x] == Output(a, births[x].role)
    ensures forall x :: x in c.entities ==> d.entities[x] == c.entities[x]
    ensures forall x :: x in c.outputs && x !in births ==> d.outputs[x] == c.outputs[x]
  {
    hide InputEdges, NewActivity;
    BirthsAreNew(c, births);
  }

  // ---- The calls of a running activity ----

  /** Nothing but the provenance tables changed. */
  ghost predicate KeepsRows(c: Catalog, d: Catalog) {
    d.details == c.details && d.producers == c.producers && d.findings == c.findings && d.cache == c.cache
  }

  /** A request to use an entity as an input commits exactly when it names one and a role, the
      activity is running and open, the entity exists and the edge is new; then the inputs are
      the old ones and that edge, and nothing else changed. */
  lemma UseInputEffect(c: Catalog, r: Request)
    requires r.call.UseInput?
    ensures var a, e, role := r.call.activity, r.call.entity, r.call.role;
            && (Handle(c, r).Commit? <==>
                  KeyUnused(c, r) && e.text != "" && role != "" && IsRunning(c.core, a) && !c.core.activities[a].inputsSealed
                  && e in c.core.entities && Edge(a, e, role) !in c.core.inputs)
            && (Handle(c, r).Commit? ==>
                  var d := Next(c, r);
                  KeepsRows(c, d) && Keeps(c.core, d.core, true, true, false) && d.core.inputs == c.core.inputs + {Edge(a, e, role)})
  {
    hide Handle, Next, Apply, KeyUnused;
    CommittedRequest(c, r);
    UseEffect(c.core, r.call.activity, r.call.entity, r.call.role);
    if Handle(c, r).Commit? {
      PlainTables(c, r);
    }
  }

  lemma PlainTables(c: Catalog, r: Request)
    requires Handle(c, r).Commit? && Plan(c, r.call).Commit? && Plan(c, r.call).state == Rows(Plan(c, r.call).state.step, map[])
    requires Apply(c.core, Plan(c, r.call).state.step).Commit?
    requires Next(c, r).(keys := c.keys) == Install(c, Apply(c.core, Plan(c, r.call).state.step).state, Plan(c, r.call).state)
    ensures KeepsRows(c, Next(c, r)) && Next(c, r).core == Apply(c.core, Plan(c, r.call).state.step).state
  {
    hide Handle, Next, Plan, Apply;
    var d := Next(c, r);
    var e := d.(keys := c.keys);
    assert d.core == e.core && d.details == e.details && d.producers == e.producers && d.findings == e.findings && d.cache == e.cache;
    assert c.details + map[] == c.details && c.producers + map[] == c.producers && c.findings + map[] == c.findings && c.cache + map[] == c.cache;
  }

  /** The identifier and the row of what a call emits from a running activity. */
  ghost predicate Emits(c: Catalog, call: Call, a: Id, id: Id, row: NewRow) {
    match call
    case Capture(b, x, birth, digest, size, path) =>
      a == b && id == x && birth.kind == Kind.Object && row == NewRow(birth, ObjectRow(digest, size, path))
    case EmitArtifact(b, x, schema, _, artifact) =>
      && a == b && id == x && row == NewRow(Birth(Kind.Artifact, schema, "", "artifact"), artifact)
      && artifact.ArtifactRow? && artifact.producedBy == a && IsObject(c, artifact.source)
      && exists role :: Edge(a, artifact.source, role) in c.core.inputs
    case Relate(b, x, _, assertion) =>
      && a == b && id == x && row == NewRow(Birth(Kind.Assertion, "", "", "assertion"), assertion)
      && assertion.AssertionRow? && assertion.producedBy == a && assertion.targets != []
      && forall t :: t in assertion.targets ==> t.id in c.core.entities
    case _ => false
  }

  /** A committed capture, artifact or assertion is an output of its activity with the typed row
      given; an artifact's source is an object that the activity used, and an assertion's targets
      exist. */
  lemma EmissionEffect(c: Catalog, r: Request) returns (row: NewRow)
    requires (r.call.Capture? || r.call.EmitArtifact? || r.call.Relate?) && Handle(c, r).Commit?
    ensures Emits(c, r.call, r.call.activity, r.call.id, row) && EmittedRow(c, Next(c, r), r.call.activity, r.call.id, row)
  {
    hide Handle, Next, Apply, KeyUnused, Plan, Emits, Emitted, IsRunning;
    CommittedRequest(c, r);
    var d, eff := Next(c, r), Plan(c, r.call).state;
    row := EmissionPlan(c, r.call);
    EmitEffect(c.core, r.call.activity, r.call.id, row.birth);
    var e := d.(keys := c.keys);
    assert d.core == e.core && d.details == e.details;
    OneMoreDetail(c.details, r.call.id, row.detail);
  }

  lemma OneMoreDetail(details: map<Id, Detail>, id: Id, row: Detail)
    ensures details + map[id := row] == details[id := row]
  {
  }

  ghost predicate EmittedRow(c: Catalog, d: Catalog, a: Id, id: Id, row: NewRow) {
    && IsRunning(c.core, a) && id !in c.core.entities
    && Emitted(c.core, d.core, a, id, row.birth) && d.details == c.details[id := row.detail]
  }

  lemma EmissionPlan(c: Catalog, call: Call) returns (row: NewRow)
    requires (call.Capture? || call.EmitArtifact? || call.Relate?) && Plan(c, call).Commit?
    ensures Emits(c, call, call.activity, call.id, row)
    ensures Plan(c, call).state.step == OpEmit(call.activity, call.id, row.birth) && Plan(c, call).state.rows == map[call.id := row.detail]
  {
    hide Produced;
    row := NewRow(Plan(c, call).state.step.birth, Plan(c, call).state.rows[call.id]);
    if call.EmitArtifact? {
      var i :| i in c.core.inputs && i.activity == call.activity && i.entity == call.artifact.source;
      assert Edge(call.activity, call.artifact.source, i.role) == i;
    }
  }

  /** Finishing stores the outcome, and only for a running activity. */
  lemma FinishRequestEffect(c: Catalog, r: Request)
    requires r.call.FinishActivity?
    ensures Handle(c, r).Commit? <==> KeyUnused(c, r) && IsRunning(c.core, r.call.activity) && r.call.state != ActivityState.Running
    ensures Handle(c, r).Commit? ==> KeepsRows(c, Next(c, r)) && Ended(c.core, Next(c, r).core, {r.call.activity}, r.call.state)
  {
    hide Handle, Next, Apply, KeyUnused, Ended;
    CommittedRequest(c, r);
    FinishEffect(c.core, r.call.activity, r.call.state);
    if Handle(c, r).Commit? {
      PlainTables(c, r);
    }
  }

  // ---- What was used is an ancestor of what is made ----

  /** Using an entity in an activity makes it a strict ancestor of everything the activity emits
      from then on, in every later catalog. */
  lemma UsedIsAncestor(c: Catalog, use: Request, between: seq<Request>, emit: Request, after: seq<Request>)
    requires Inv(c) && use.call.UseInput? && Handle(c, use).Commit?
    requires (emit.call.Capture? || emit.call.EmitArtifact? || emit.call.Relate?) && emit.call.activity == use.call.activity
    requires Handle(Run(Next(c, use), between), emit).Commit?
    ensures var e := Run(Next(Run(Next(c, use), between), emit), after);
            emit.call.id in e.core.entities && use.call.entity in StrictReach(AncestorEdges(e.core), emit.call.id)
  {
    hide Inv, Extends, Run, Handle, Next, StrictReach, Keeps, KeyUnused;
    var edge := Edge(use.call.activity, use.call.entity, use.call.role);
    var c1 := Next(c, use);
    var c2 := Run(c1, between);
    var c3 := Next(c2, emit);
    var c4 := Run(c3, after);
    UseInputEffect(c, use);
    RequestKeeps(c, use);
    RunKeeps(c1, between);
    RequestKeeps(c2, emit);
    RunKeeps(c3, after);
    InputStays(c1, c2, edge);
    InputStays(c2, c3, edge);
    InputStays(c3, c4, edge);
    EmittedBy(c2, emit);
    OutputStays(c3, c4, emit.call.id);
    assert (emit.call.id, use.call.entity) in AncestorEdges(c4.core);
    hide AncestorEdges;
    StrictReachStep(AncestorEdges(c4.core), emit.call.id, use.call.entity);
  }

  lemma InputStays(c: Catalog, d: Catalog, i: Edge)
    requires Extends(c, d) && i in c.core.inputs
    ensures i in d.core.inputs
  {
  }

  lemma OutputStays(c: Catalog, d: Catalog, x: Id)
    requires Extends(c, d) && x in c.core.entities && x in c.core.outputs
    ensures x in d.core.entities && x in d.core.outputs && d.core.outputs[x] == c.core.outputs[x]
  {
  }

  lemma EmittedBy(c: Catalog, r: Request)
    requires (r.call.Capture? || r.call.EmitArtifact? || r.call.Relate?) && Handle(c, r).Commit?
    ensures var d := Next(c, r).core;
            r.call.id in d.entities && r.call.id in d.outputs && d.outputs[r.call.id].activity == r.call.activity
  {
    hide Handle, Next, Emits;
    var _ := EmissionEffect(c, r);
  }

  // ---- The calls that are one transaction ----

  /** The call makes an activity and all that it generates at once. */
  predicate MakesInOne(call: Call) {
    call.ImportEvidence? || call.ImportTree? || call.Freeze? || call.CreateProjection? || call.SaveSearch? || call.Publish?
    || call.AuthorFinding? || call.ReviseFinding?
  }

  /** What such a call generates. */
  ghost predicate Makes(call: Call, x: Id) {
    match call
    case ImportEvidence(_, _, evidence, objectId, _, _, _) => x == evidence || x == objectId
    case ImportTree(_, _, evidence, tree, manifest, _, _, entries) =>
      x == evidence || x == tree || x == manifest || exists e :: e in entries && e.kind.File? && e.objectId == x
    case Freeze(_, _, selection, _, _) => x == selection
    case CreateProjection(_, _, projection, _, _, _) => x == projection
    case SaveSearch(_, _, selection, _, hits, _) => x == selection || x in hits
    case Publish(_, _, _, rows) => x in rows
    case AuthorFinding(_, _, _, id, _, _) => x == id
    case ReviseFinding(_, _, _, id, _, _) => x == id
    case _ => false
  }

  /** What its activity uses, and in which role. */
  ghost predicate Needs(call: Call, x: Id, role: string) {
    match call
    case Freeze(_, _, _, _, picked) => x in picked && role == "member"
    case CreateProjection(_, _, _, selection, _, _) => x == selection && role == "selection"
    case SaveSearch(_, _, _, source, hits, _) =>
      (x == source && role == "source-selection") || (role == "searched-object" && exists h :: h in hits && hits[h].objectId == x)
    case Publish(_, _, uses, _) => (x, role) in uses
    case AuthorFinding(_, _, _, _, _, members) => (x, role) in members
    case ReviseFinding(_, _, _, _, expected, members) => (x, role) in members || (x == expected && role == "predecessor")
    case _ => false
  }

  /** What it asks of the case and of its arguments besides. */
  ghost predicate Asks(c: Catalog, call: Call) {
    match call
    case ImportEvidence(_, _, evidence, objectId, _, _, _) => evidence != objectId
    case ImportTree(_, _, evidence, tree, manifest, _, _, entries) =>
      && evidence != tree && evidence != manifest && tree != manifest
      && (forall e :: e in entries && e.kind.File? ==> e.objectId !in {evidence, tree, manifest})
      && forall i, j :: 0 <= i < j < |entries| && entries[i].kind.File? && entries[j].kind.File? ==> entries[i].objectId != entries[j].objectId
    case Freeze(_, _, _, _, picked) => NoneTwice(picked)
    case CreateProjection(_, _, _, selection, picked, excluded) =>
      && selection in c.details && c.details[selection].SelectionRow? && NoneTwice(picked) && NoneTwice(excluded)
      && forall x :: x in picked || x in excluded ==> x in c.core.entities
    case SaveSearch(_, _, selection, source, hits, order) =>
      && source in c.details && c.details[source].SelectionRow? && selection !in hits
      && NoneTwice(order) && (forall x :: x in order <==> x in hits)
      && forall h :: h in hits ==> hits[h].objectId in c.details && c.details[hits[h].objectId].ObjectRow?
    case Publish(_, _, _, rows) =>
      forall x :: x in rows ==> (rows[x].birth.kind == Kind.Manifest && rows[x].detail.ObjectRow?)
                                || (rows[x].birth.kind == Kind.Deliverable && rows[x].detail.DeliverableRow?)
    case AuthorFinding(_, _, finding, _, title, members) => title != "" && finding !in c.findings && NoneTwice(members)
    case ReviseFinding(_, _, finding, _, expected, members) =>
      expected.text != "" && finding in c.findings && c.findings[finding].current == expected && NoneTwice(members)
    case _ => false
  }

  ghost predicate NoneTwice<T>(s: seq<T>) {
    forall i, j :: 0 <= i < j < |s| ==> s[i] != s[j]
  }

  /** A request for a whole activity commits exactly when its key is unused, its arguments are in
      order, the activity and all it makes are new, and all it uses exists. */
  lemma OneTransactionCommitsIff(c: Catalog, r: Request)
    requires MakesInOne(r.call)
    ensures Handle(c, r).Commit? <==>
      KeyUnused(c, r) && Asks(c, r.call) && r.call.activity !in c.core.activities
      && (forall x :: Makes(r.call, x) ==> x !in c.core.entities)
      && forall x, role :: Needs(r.call, x, role) ==> x in c.core.entities
  {
    hide Handle, Next, Plan, Apply, KeyUnused;
    CommittedRequest(c, r);
    PlanAsks(c, r.call);
    if Plan(c, r.call).Commit? {
      OneTransactionPlan(c, r.call);
      var step := Plan(c, r.call).state.step;
      hide Makes, Needs;
      OneShotCommitsIff(c.core, r.call, step);
    }
    hide Asks, Makes, Needs;
  }

  lemma Apart<T>(a: set<T>, b: set<T>)
    ensures a * b == {} <==> forall x :: x in a ==> x !in b
  {
    if x :| x in a && x in b {
      assert x in a * b;
    }
  }

  lemma OneShotCommitsIff(c: Core, call: Call, step: CoreOp)
    requires MakesInOne(call) && StepFits(call, step)
    ensures Apply(c, step).Commit? <==>
      call.activity !in c.activities && (forall x :: Makes(call, x) ==> x !in c.entities)
      && forall x, role :: Needs(call, x, role) ==> x in c.entities
  {
    hide Makes, Needs;
    Apart(step.births.Keys, c.entities.Keys);
    if u :| u in step.uses && u.0 !in c.entities {
      assert (u.0, u.1) in step.uses;
      assert Needs(call, u.0, u.1);
    }
    if x, role :| Needs(call, x, role) && x !in c.entities {
      assert (x, role) in step.uses;
    }
    hide NewActivity, NewEntities, InputEdges, OutputEdges;
  }

  lemma PlanAsks(c: Catalog, call: Call)
    requires MakesInOne(call)
    ensures Plan(c, call).Commit? ==> Asks(c, call)
    ensures Asks(c, call) && (forall x, role :: Needs(call, x, role) ==> x in c.core.entities) ==> Plan(c, call).Commit?
  {
    if call.SaveSearch? {
      SearchAsks(c, call);
    } else if call.ImportTree? {
      TreeAsks(call);
      TreePlanAsks(c, call);
    } else if call.Freeze? {
      FreezeAsks(c, call);
    } else if call.AuthorFinding? || call.ReviseFinding? {
      FindingAsks(c, call);
    } else {
      OtherPlanAsks(c, call);
    }
    hide Plan, Asks, Needs;
  }

  lemma TreePlanAsks(c: Catalog, call: Call)
    requires call.ImportTree?
    requires {call.evidence, call.tree, call.manifest} * FileIds(call.entries) == {}
             <==> forall e :: e in call.entries && e.kind.File? ==> e.objectId !in {call.evidence, call.tree, call.manifest}
    ensures Plan(c, call).Commit? <==> Asks(c, call)
  {
    hide OneShotRows, TreeRows, FileIds;
  }

  lemma FreezeAsks(c: Catalog, call: Call)
    requires call.Freeze?
    ensures Plan(c, call).Commit? ==> Asks(c, call)
    ensures Asks(c, call) && (forall x, role :: Needs(call, x, role) ==> x in c.core.entities) ==> Plan(c, call).Commit?
  {
    hide OneShotRows, RefsOf;
    assert forall x :: x in call.picked ==> Needs(call, x, "member");
  }

  lemma FindingAsks(c: Catalog, call: Call)
    requires call.AuthorFinding? || call.ReviseFinding?
    ensures Plan(c, call).Commit? <==> Asks(c, call)
  {
    hide OneShotRows, Elements, FindingRows;
  }

  lemma OtherPlanAsks(c: Catalog, call: Call)
    requires call.ImportEvidence? || call.CreateProjection? || call.Publish?
    ensures Plan(c, call).Commit? <==> Asks(c, call)
  {
    hide OneShotRows, RefsOf, EvidenceRows;
  }

  lemma TreeAsks(call: Call)
    requires call.ImportTree?
    ensures {call.evidence, call.tree, call.manifest} * FileIds(call.entries) == {}
            <==> forall e :: e in call.entries && e.kind.File? ==> e.objectId !in {call.evidence, call.tree, call.manifest}
  {
    var heads := {call.evidence, call.tree, call.manifest};
    forall e | e in call.entries && e.kind.File?
      ensures e.objectId in FileIds(call.entries)
    {
    }
    assert forall x :: x in heads && x in FileIds(call.entries) ==> x in heads * FileIds(call.entries);
    if heads * FileIds(call.entries) != {} {
      var x :| x in heads * FileIds(call.entries);
      var e :| e in call.entries && e.kind.File? && e.objectId == x;
    }
  }

  lemma SearchAsks(c: Catalog, call: Call)
    requires call.SaveSearch?
    ensures Plan(c, call).Commit? <==> Asks(c, call)
  {
    hide OneShotRows, SearchRows, SearchUses;
    assert Elements(call.order) == call.hits.Keys <==> forall x :: x in call.order <==> x in call.hits by {
      assert forall x :: x in Elements(call.order) <==> x in call.order;
      if forall x :: x in call.order <==> x in call.hits {
        assert forall x :: x in Elements(call.order) <==> x in call.hits.Keys;
      }
    }
  }

  /** The step generates and uses what the call says. */
  ghost predicate StepFits(call: Call, step: CoreOp)
    requires MakesInOne(call)
  {
    && step.OpOneShot? && step.activity == call.activity && step.who == call.who
    && (forall x :: x in step.births <==> Makes(call, x))
    && forall x, role :: (x, role) in step.uses <==> Needs(call, x, role)
  }

  lemma StepOfRows(call: Call, uses: set<(Id, string)>, rows: map<Id, NewRow>)
    requires MakesInOne(call)
    requires (forall x :: x in rows <==> Makes(call, x)) && forall x, role :: (x, role) in uses <==> Needs(call, x, role)
    ensures StepFits(call, OneShotRows(call.activity, call.who, uses, rows).step)
  {
    BirthsMatch(rows);
    hide Makes, Needs, BirthsOf, DetailsOf;
  }

  lemma OneTransactionPlan(c: Catalog, call: Call)
    requires MakesInOne(call) && Plan(c, call).Commit?
    ensures StepFits(call, Plan(c, call).state.step)
  {
    if call.ImportTree? {
      TreeStepFits(c, call);
    } else if call.SaveSearch? {
      SearchStepFits(c, call);
    } else if call.AuthorFinding? || call.ReviseFinding? {
      FindingStepFits(c, call);
    } else if call.Publish? {
      StepOfRows(call, call.uses, call.rows);
      hide StepFits, OneShotRows;
    } else {
      SmallStepFits(c, call);
    }
  }

  lemma TreePlanned(c: Catalog, call: Call)
    requires call.ImportTree? && Plan(c, call).Commit?
    ensures Plans(Plan(c, call).state, call.activity, call.who, {},
                  TreeRows(call.evidence, call.tree, call.manifest, call.digest, call.size, call.entries))
  {
    hide OneShotRows, TreeRows, DistinctFiles, FileIds;
  }

  lemma TreeMakes(call: Call)
    requires call.ImportTree?
    ensures forall x :: x in TreeRows(call.evidence, call.tree, call.manifest, call.digest, call.size, call.entries) <==> Makes(call, x)
  {
    TreeRowsKeys(call.evidence, call.tree, call.manifest, call.digest, call.size, call.entries);
    hide TreeRows;
  }

  lemma TreeStepFits(c: Catalog, call: Call)
    requires call.ImportTree? && Plan(c, call).Commit?
    ensures StepFits(call, Plan(c, call).state.step)
  {
    var rows := TreeRows(call.evidence, call.tree, call.manifest, call.digest, call.size, call.entries);
    TreeMakes(call);
    TreePlanned(c, call);
    hide TreeRows, OneShotRows, StepFits, Plan, Makes;
    StepOfRows(call, {}, rows);
  }

  lemma SearchPlanned(c: Catalog, call: Call)
    requires call.SaveSearch? && Plan(c, call).Commit?
    ensures Plans(Plan(c, call).state, call.activity, call.who, SearchUses(call.source, call.hits),
                  SearchRows(call.activity, call.selection, call.hits, call.order, c.core.revision + 1))
  {
    hide OneShotRows, SearchRows, SearchUses, NoDuplicates, Elements, IsObject;
  }

  lemma SearchStepFits(c: Catalog, call: Call)
    requires call.SaveSearch? && Plan(c, call).Commit?
    ensures StepFits(call, Plan(c, call).state.step)
  {
    var rows := SearchRows(call.activity, call.selection, call.hits, call.order, c.core.revision + 1);
    var uses := SearchUses(call.source, call.hits);
    SearchKeys(c, call);
    SearchUsesMean(call, uses);
    SearchPlanned(c, call);
    hide SearchRows, SearchUses, OneShotRows, StepFits, Needs, Plan;
    StepOfRows(call, uses, rows);
  }

  lemma SearchKeys(c: Catalog, call: Call)
    requires call.SaveSearch?
    ensures SearchRows(call.activity, call.selection, call.hits, call.order, c.core.revision + 1).Keys == call.hits.Keys + {call.selection}
  {
    hide HitSchema, HitRefs;
  }

  lemma SearchUsesMean(call: Call, uses: set<(Id, string)>)
    requires call.SaveSearch? && uses == SearchUses(call.source, call.hits)
    ensures forall x, role :: (x, role) in uses <==> Needs(call, x, role)
  {
  }

  lemma FindingStepFits(c: Catalog, call: Call)
    requires (call.AuthorFinding? || call.ReviseFinding?) && Plan(c, call).Commit?
    ensures StepFits(call, Plan(c, call).state.step)
  {
    hide OneShotRows, StepFits, Plan, Elements;
    if call.AuthorFinding? {
      AuthorPlan(c, call);
      var row := FindingRow(call.finding, 1, None, Elements(call.members));
      MembersAreNeeded(call, Elements(call.members));
      StepOfRows(call, Elements(call.members), map[call.id := NewRow(Birth(FindingRevision, "", "", "finding-revision"), row)]);
    } else {
      RevisePlan(c, call);
      var row := FindingRow(call.finding, c.findings[call.finding].version + 1, Some(call.expected), Elements(call.members));
      var uses := Elements(call.members) + {(call.expected, "predecessor")};
      MembersAreNeeded(call, uses);
      StepOfRows(call, uses, map[call.id := NewRow(Birth(FindingRevision, "", "", "finding-revision"), row)]);
    }
  }

  lemma MembersAreNeeded(call: Call, uses: set<(Id, string)>)
    requires call.AuthorFinding? || call.ReviseFinding?
    requires uses == Elements(call.members) + if call.AuthorFinding? then {} else {(call.expected, "predecessor")}
    ensures forall x, role :: (x, role) in uses <==> Needs(call, x, role)
  {
    assert forall x, role :: (x, role) in Elements(call.members) <==> (x, role) in call.members;
  }

  lemma SmallStepFits(c: Catalog, call: Call)
    requires (call.ImportEvidence? || call.Freeze? || call.CreateProjection?) && Plan(c, call).Commit?
    ensures StepFits(call, Plan(c, call).state.step)
  {
    hide OneShotRows, StepFits, NoDuplicates, RefsOf, Plan;
    if call.ImportEvidence? {
      ImportEvidencePlan(c, call);
      StepOfRows(call, {}, map[call.evidence := NewRow(Birth(Kind.Evidence, "", "", "evidence"), EvidenceRow(map[call.objectId := Root])),
                      call.objectId := NewRow(Birth(Kind.Object, "", "", "original"), ObjectRow(call.digest, call.size, call.path))]);
    } else if call.Freeze? {
      FreezePlan(c, call);
      var uses := set m | m in call.picked :: (m, "member");
      StepOfRows(call, uses, map[call.selection := NewRow(Birth(Kind.Selection, "", "", "selection"), SelectionRow(call.observed, RefsOf(c, call.picked)))]);
    } else {
      ProjectionPlan(c, call);
      StepOfRows(call, {(call.selection, "selection")},
                 map[call.projection := NewRow(Birth(Kind.Projection, "", "", "projection"),
                                               ProjectionRow(call.selection, RefsOf(c, call.picked), RefsOf(c, call.excluded)))]);
    }
  }

  /** Importing evidence makes the evidence with one root, and the object with its digest, size
      and path. */
  lemma ImportEvidenceEffect(c: Catalog, r: Request)
    requires r.call.ImportEvidence? && Handle(c, r).Commit?
    ensures var call, d := r.call, Next(c, r);
            && call.evidence != call.objectId
            && Made(c, d, call.activity, call.who, {},
                    map[call.evidence := NewRow(Birth(Kind.Evidence, "", "", "evidence"), EvidenceRow(map[call.objectId := Root])),
                        call.objectId := NewRow(Birth(Kind.Object, "", "", "original"), ObjectRow(call.digest, call.size, call.path))])
  {
    hide Handle, Next, Apply, KeyUnused, Made, Plan, Plans;
    CommittedRequest(c, r);
    var call, eff := r.call, Plan(c, r.call).state;
    var rows := map[call.evidence := NewRow(Birth(Kind.Evidence, "", "", "evidence"), EvidenceRow(map[call.objectId := Root])),
                    call.objectId := NewRow(Birth(Kind.Object, "", "", "original"), ObjectRow(call.digest, call.size, call.path))];
    ImportEvidencePlan(c, call);
    MadeByRequest(c, r, {}, rows);
  }

  lemma ImportEvidencePlan(c: Catalog, call: Call)
    requires call.ImportEvidence? && Plan(c, call).Commit?
    ensures call.evidence != call.objectId
    ensures Plans(Plan(c, call).state, call.activity, call.who, {},
                  map[call.evidence := NewRow(Birth(Kind.Evidence, "", "", "evidence"), EvidenceRow(map[call.objectId := Root])),
                      call.objectId := NewRow(Birth(Kind.Object, "", "", "original"), ObjectRow(call.digest, call.size, call.path))])
  {
    hide OneShotRows;
  }

  lemma FreezePlan(c: Catalog, call: Call)
    requires call.Freeze? && Plan(c, call).Commit?
    ensures AllExist(c, call.picked)
    ensures Plans(Plan(c, call).state, call.activity, call.who, set m | m in call.picked :: (m, "member"),
                  map[call.selection := NewRow(Birth(Kind.Selection, "", "", "selection"), SelectionRow(call.observed, RefsOf(c, call.picked)))])
  {
    hide OneShotRows, NoDuplicates, RefsOf;
  }

  lemma ProjectionPlan(c: Catalog, call: Call)
    requires call.CreateProjection? && Plan(c, call).Commit?
    ensures AllExist(c, call.picked) && AllExist(c, call.excluded) && call.selection in c.details && c.details[call.selection].SelectionRow?
    ensures Plans(Plan(c, call).state, call.activity, call.who, {(call.selection, "selection")},
                  map[call.projection := NewRow(Birth(Kind.Projection, "", "", "projection"),
                                                ProjectionRow(call.selection, RefsOf(c, call.picked), RefsOf(c, call.excluded)))])
  {
    hide OneShotRows, NoDuplicates, RefsOf;
  }

  lemma AuthorPlan(c: Catalog, call: Call)
    requires call.AuthorFinding? && Plan(c, call).Commit?
    ensures call.title != "" && call.finding !in c.findings
    ensures Plan(c, call).state.findings == map[call.finding := Finding(call.title, call.id, 1)]
    ensures Plans(Plan(c, call).state, call.activity, call.who, Elements(call.members),
                  map[call.id := NewRow(Birth(FindingRevision, "", "", "finding-revision"),
                                        FindingRow(call.finding, 1, None, Elements(call.members)))])
  {
    hide BirthsOf, DetailsOf, NoDuplicates, Elements;
  }

  lemma RevisePlan(c: Catalog, call: Call)
    requires call.ReviseFinding? && Plan(c, call).Commit?
    ensures call.finding in c.findings && c.findings[call.finding].current == call.expected
    ensures Plan(c, call).state.findings
            == map[call.finding := Finding(c.findings[call.finding].title, call.id, c.findings[call.finding].version + 1)]
    ensures Plans(Plan(c, call).state, call.activity, call.who, Elements(call.members) + {(call.expected, "predecessor")},
                  map[call.id := NewRow(Birth(FindingRevision, "", "", "finding-revision"),
                                        FindingRow(call.finding, c.findings[call.finding].version + 1, Some(call.expected), Elements(call.members)))])
  {
    hide BirthsOf, DetailsOf, NoDuplicates, Elements;
  }

  lemma MadeByRequest(c: Catalog, r: Request, uses: set<(Id, string)>, rows: map<Id, NewRow>)
    requires Handle(c, r).Commit? && Plan(c, r.call).Commit? && Apply(c.core, Plan(c, r.call).state.step).Commit?
    requires MakesInOne(r.call)
    requires Plans(Plan(c, r.call).state, r.call.activity, r.call.who, uses, rows)
    requires Next(c, r).(keys := c.keys) == Install(c, Apply(c.core, Plan(c, r.call).state.step).state, Plan(c, r.call).state)
    ensures Made(c, Next(c, r), r.call.activity, r.call.who, uses, rows)
  {
    hide Handle, Next, Plan, Apply, Plans, Born;
    var d, eff := Next(c, r), Plan(c, r.call).state;
    var core := Apply(c.core, eff.step).state;
    assert Apply(c.core, eff.step).reply == ();
    MadeByPlan(c, core, eff, r.call.activity, r.call.who, uses, rows);
    var e := d.(keys := c.keys);
    assert d.core == e.core && d.details == e.details;
    MadeReadsTables(c, e, d, r.call.activity, r.call.who, uses, rows);
  }

  lemma MadeReadsTables(c: Catalog, e: Catalog, d: Catalog, a: Id, who: Actor, uses: set<(Id, string)>, rows: map<Id, NewRow>)
    requires Made(c, e, a, who, uses, rows) && d.core == e.core && d.details == e.details
    ensures Made(c, d, a, who, uses, rows)
  {
    hide Keeps, OnlyActivity;
    assert forall x :: x in rows ==> Born(e, a, x, rows[x]) ==> Born(d, a, x, rows[x]);
  }

  /** Freezing a selection makes one row that lists the picked entities in order, by their own
      kinds, with the revision they were picked at, from exactly those entities as members. */
  lemma FreezeEffect(c: Catalog, r: Request)
    requires r.call.Freeze? && Handle(c, r).Commit?
    ensures var call, d := r.call, Next(c, r);
            exists row: NewRow ::
              && row.birth == Birth(Kind.Selection, "", "", "selection") && row.detail.SelectionRow? && row.detail.observed == call.observed
              && ListsRefs(c, call.picked, row.detail.selected)
              && Made(c, d, call.activity, call.who, set m | m in call.picked :: (m, "member"), map[call.selection := row])
  {
    hide Handle, Next, Apply, KeyUnused, Made, Plan, Plans;
    CommittedRequest(c, r);
    FreezePlan(c, r.call);
    var call, eff := r.call, Plan(c, r.call).state;
    var row := NewRow(Birth(Kind.Selection, "", "", "selection"), SelectionRow(call.observed, RefsOf(c, call.picked)));
    MadeByRequest(c, r, set m | m in call.picked :: (m, "member"), map[call.selection := row]);
  }

  /** The references are those of the identifiers, in order. */
  ghost predicate ListsRefs(c: Catalog, ids: seq<Id>, refs: seq<Ref>) {
    |refs| == |ids| && forall k :: 0 <= k < |ids| ==>
      ids[k] in c.core.entities && refs[k].id == ids[k] && refs[k].kind == c.core.entities[ids[k]].kind
  }

  /** Creating a projection makes one row with the included and the excluded members, from its
      selection. */
  lemma ProjectionEffect(c: Catalog, r: Request)
    requires r.call.CreateProjection? && Handle(c, r).Commit?
    ensures var call, d := r.call, Next(c, r);
            && call.selection in c.details && c.details[call.selection].SelectionRow?
            && exists row: NewRow ::
              && row.birth == Birth(Kind.Projection, "", "", "projection") && row.detail.ProjectionRow? && row.detail.selection == call.selection
              && ListsRefs(c, call.picked, row.detail.included) && ListsRefs(c, call.excluded, row.detail.excluded)
              && Made(c, d, call.activity, call.who, {(call.selection, "selection")}, map[call.projection := row])
  {
    hide Handle, Next, Apply, KeyUnused, Made, Plan, Plans;
    CommittedRequest(c, r);
    ProjectionPlan(c, r.call);
    var call, eff := r.call, Plan(c, r.call).state;
    var row := NewRow(Birth(Kind.Projection, "", "", "projection"),
                      ProjectionRow(call.selection, RefsOf(c, call.picked), RefsOf(c, call.excluded)));
    MadeByRequest(c, r, {(call.selection, "selection")}, map[call.projection := row]);
  }

  /** Authoring a finding makes its first revision, which lists the members given, and the
      finding that points at it. */
  lemma AuthorEffect(c: Catalog, r: Request)
    requires r.call.AuthorFinding? && Handle(c, r).Commit?
    ensures var call, d := r.call, Next(c, r);
            && call.title != "" && call.finding !in c.findings
            && (exists members: set<(Id, string)> ::
                  (forall m :: m in members <==> m in call.members)
                  && Made(c, d, call.activity, call.who, members,
                          map[call.id := NewRow(Birth(FindingRevision, "", "", "finding-revision"), FindingRow(call.finding, 1, None, members))]))
            && d.findings == c.findings[call.finding := Finding(call.title, call.id, 1)]
  {
    hide Handle, Next, Apply, KeyUnused, Made, NoDuplicates, Plan, Plans;
    CommittedRequest(c, r);
    var call, eff := r.call, Plan(c, r.call).state;
    var members := Elements(call.members);
    var rows := map[call.id := NewRow(Birth(FindingRevision, "", "", "finding-revision"), FindingRow(call.finding, 1, None, members))];
    AuthorPlan(c, call);
    MadeByRequest(c, r, members, rows);
    assert Next(c, r).findings == Next(c, r).(keys := c.keys).findings;
    assert c.findings + map[call.finding := Finding(call.title, call.id, 1)] == c.findings[call.finding := Finding(call.title, call.id, 1)];
  }

  /** Revising a finding makes the next revision, which names the one before it and lists the
      members given, and moves the finding to it under its old title. */
  lemma ReviseEffect(c: Catalog, r: Request)
    requires r.call.ReviseFinding? && Handle(c, r).Commit?
    ensures var call, d := r.call, Next(c, r);
            && call.finding in c.findings && c.findings[call.finding].current == call.expected
            && var now := c.findings[call.finding];
               && (exists members: set<(Id, string)> ::
                     (forall m :: m in members <==> m in call.members)
                     && Made(c, d, call.activity, call.who, members + {(call.expected, "predecessor")},
                             map[call.id := NewRow(Birth(FindingRevision, "", "", "finding-revision"),
                                                   FindingRow(call.finding, now.version + 1, Some(call.expected), members))]))
               && d.findings == c.findings[call.finding := Finding(now.title, call.id, now.version + 1)]
  {
    hide Handle, Next, Apply, KeyUnused, Made, NoDuplicates, Plan, Plans;
    CommittedRequest(c, r);
    RevisePlan(c, r.call);
    var call, eff, now := r.call, Plan(c, r.call).state, c.findings[r.call.finding];
    var members := Elements(call.members);
    var rows := map[call.id := NewRow(Birth(FindingRevision, "", "", "finding-revision"),
                                      FindingRow(call.finding, now.version + 1, Some(call.expected), members))];
    MadeByRequest(c, r, members + {(call.expected, "predecessor")}, rows);
    var last := Finding(now.title, call.id, now.version + 1);
    assert Next(c, r).findings == Next(c, r).(keys := c.keys).findings;
    assert c.findings + map[call.finding := last] == c.findings[call.finding := last];
  }

  /** Importing a tree makes the evidence, with the manifest as its root and the files beside it,
      the tree, the manifest object, and one object per file with that file's digest, size and
      path. */
  lemma ImportTreeEffect(c: Catalog, r: Request) returns (rows: map<Id, NewRow>)
    requires r.call.ImportTree? && Handle(c, r).Commit?
    ensures IsTreeImport(r.call, rows) && Made(c, Next(c, r), r.call.activity, r.call.who, {}, rows)
  {
    hide Handle, Next, Apply, KeyUnused, Made, Plan, Plans, TreeRows, Asks;
    CommittedRequest(c, r);
    var call := r.call;
    rows := TreeRows(call.evidence, call.tree, call.manifest, call.digest, call.size, call.entries);
    TreePlanned(c, call);
    PlanAsks(c, call);
    TreeRowsImport(c, call, rows);
    MadeByRequest(c, r, {}, rows);
  }

  ghost predicate IsTreeImport(call: Call, rows: map<Id, NewRow>)
    requires call.ImportTree?
  {
    (forall x :: x in rows <==> Makes(call, x)) && AreTreeHeads(call, rows) && IsTreeEvidence(call, rows) && AreTreeFiles(call, rows)
  }

  ghost predicate AreTreeHeads(call: Call, rows: map<Id, NewRow>)
    requires call.ImportTree?
  {
    && call.tree in rows && call.manifest in rows
    && rows[call.tree] == NewRow(Birth(SourceTree, "", "", "source-tree"), TreeRow(call.evidence, call.manifest, call.entries))
    && rows[call.manifest] == NewRow(Birth(Kind.Object, "", "application/json", "tree-manifest"),
                                     ObjectRow(call.digest, call.size, "source-tree-manifest.json"))
  }

  ghost predicate IsTreeEvidence(call: Call, rows: map<Id, NewRow>)
    requires call.ImportTree?
  {
    && call.evidence in rows && rows[call.evidence].birth == Birth(Kind.Evidence, "", "", "evidence") && rows[call.evidence].detail.EvidenceRow?
    && var objects := rows[call.evidence].detail.objects;
       && (forall x :: x in objects <==> x in rows && x != call.evidence && x != call.tree)
       && forall x :: x in objects ==> objects[x] == if x == call.manifest then Root else TreeFile
  }

  ghost predicate AreTreeFiles(call: Call, rows: map<Id, NewRow>)
    requires call.ImportTree?
  {
    forall e :: e in call.entries && e.kind.File? ==>
      e.objectId in rows && rows[e.objectId] == NewRow(Birth(Kind.Object, "", "", "tree-file"), ObjectRow(e.digest, e.size, e.path))
  }

  lemma TreeRowsImport(c: Catalog, call: Call, rows: map<Id, NewRow>)
    requires call.ImportTree? && Asks(c, call)
    requires rows == TreeRows(call.evidence, call.tree, call.manifest, call.digest, call.size, call.entries)
    ensures IsTreeImport(call, rows)
  {
    TreeMakes(call);
    TreeHeadRows(c, call, rows);
    TreeEvidenceRows(c, call, rows);
    TreeFileRows(c, call, rows);
    hide TreeRows, Makes, Asks, AreTreeHeads, IsTreeEvidence, AreTreeFiles;
  }

  lemma TreeHeadRows(c: Catalog, call: Call, rows: map<Id, NewRow>)
    requires call.ImportTree? && Asks(c, call)
    requires rows == TreeRows(call.evidence, call.tree, call.manifest, call.digest, call.size, call.entries)
    ensures AreTreeHeads(call, rows)
  {
    hide FileRows;
  }

  lemma TreeEvidenceRows(c: Catalog, call: Call, rows: map<Id, NewRow>)
    requires call.ImportTree? && Asks(c, call)
    requires rows == TreeRows(call.evidence, call.tree, call.manifest, call.digest, call.size, call.entries)
    ensures IsTreeEvidence(call, rows)
  {
    hide FileRows, TreeRows;
    var files := FileRows(call.entries);
    FilesApart(c, call);
    assert call.evidence != call.tree && call.evidence != call.manifest && call.tree != call.manifest;
    hide Asks;
    TreeEvidenceRow(call.evidence, call.tree, call.manifest, call.digest, call.size, call.entries);
    RolesOfObjects(files, call.manifest);
  }

  lemma TreeEvidenceRow(evidence: Id, tree: Id, manifest: Id, digest: string, size: nat, entries: seq<TreeEntry>)
    requires evidence != tree && evidence != manifest
    ensures var rows, files := TreeRows(evidence, tree, manifest, digest, size, entries), FileRows(entries);
            && rows.Keys == files.Keys + {evidence, tree, manifest}
            && rows[evidence] == NewRow(Birth(Kind.Evidence, "", "", "evidence"),
                                        EvidenceRow((map id | id in files :: TreeFile) + map[manifest := Root]))
  {
    hide FileRows, JsonMedia, TreeManifestPath;
  }

  lemma RolesOfObjects(files: map<Id, NewRow>, manifest: Id)
    ensures var objects := (map id | id in files :: TreeFile) + map[manifest := Root];
            objects.Keys == files.Keys + {manifest} && forall x :: x in objects ==> objects[x] == if x == manifest then Root else TreeFile
  {
  }

  lemma FilesApart(c: Catalog, call: Call)
    requires call.ImportTree? && Asks(c, call)
    ensures forall x :: x in FileRows(call.entries) ==> x !in {call.evidence, call.tree, call.manifest}
  {
    hide FileOf;
    assert FileRows(call.entries).Keys == FileIds(call.entries);
  }

  lemma TreeFileRows(c: Catalog, call: Call, rows: map<Id, NewRow>)
    requires call.ImportTree? && Asks(c, call)
    requires rows == TreeRows(call.evidence, call.tree, call.manifest, call.digest, call.size, call.entries)
    ensures AreTreeFiles(call, rows)
  {
    FilesApart(c, call);
    hide FileOf;
    forall e | e in call.entries && e.kind.File?
      ensures e.objectId in rows && rows[e.objectId] == NewRow(Birth(Kind.Object, "", "", "tree-file"), ObjectRow(e.digest, e.size, e.path))
    {
      assert e.objectId in FileIds(call.entries);
      FileOfUnique(call.entries, e);
      assert e.objectId in FileRows(call.entries);
    }
  }

  /** Saving a search makes an artifact for each hit and the selection of them in order, observed
      at the new revision, from the source selection and the objects searched. */
  lemma SaveSearchEffect(c: Catalog, r: Request) returns (uses: set<(Id, string)>, rows: map<Id, NewRow>)
    requires r.call.SaveSearch? && Handle(c, r).Commit?
    ensures IsSavedSearch(r.call, c.core.revision + 1, uses, rows) && Made(c, Next(c, r), r.call.activity, r.call.who, uses, rows)
  {
    hide Handle, Next, Apply, KeyUnused, Made, Plan, Plans, SearchRows, SearchUses, Asks;
    CommittedRequest(c, r);
    var call := r.call;
    uses, rows := SearchUses(call.source, call.hits), SearchRows(call.activity, call.selection, call.hits, call.order, c.core.revision + 1);
    SearchPlanned(c, call);
    PlanAsks(c, call);
    SearchUsesMean(call, uses);
    SearchRowsSaved(c, call, rows);
    hide Needs;
    MadeByRequest(c, r, uses, rows);
  }

  ghost predicate IsSavedSearch(call: Call, rev: nat, uses: set<(Id, string)>, rows: map<Id, NewRow>)
    requires call.SaveSearch?
  {
    && (forall x, role :: (x, role) in uses <==> Needs(call, x, role))
    && AreSavedHits(call, rev, rows)
  }

  ghost predicate AreSavedHits(call: Call, rev: nat, rows: map<Id, NewRow>)
    requires call.SaveSearch?
  {
    var schema := "urn:forensic:artifact:byte-search-hit/v1";
    && rows.Keys == call.hits.Keys + {call.selection}
    && (forall h :: h in call.hits ==>
          rows[h] == NewRow(Birth(Kind.Artifact, schema, "", "search-hit"),
                            ArtifactRow(schema, call.hits[h].objectId, call.hits[h].fingerprint, call.activity, map[], map[])))
    && rows[call.selection].birth == Birth(Kind.Selection, "", "", "hit-selection")
    && rows[call.selection].detail.SelectionRow? && rows[call.selection].detail.observed == rev
    && |rows[call.selection].detail.selected| == |call.order|
    && forall k :: 0 <= k < |call.order| ==> rows[call.selection].detail.selected[k] == Ref(Kind.Artifact, call.order[k])
  }

  lemma SearchRowsSaved(c: Catalog, call: Call, rows: map<Id, NewRow>)
    requires call.SaveSearch? && Asks(c, call)
    requires rows == SearchRows(call.activity, call.selection, call.hits, call.order, c.core.revision + 1)
    ensures AreSavedHits(call, c.core.revision + 1, rows)
  {
    SearchKeys(c, call);
    assert call.selection !in call.hits;
    hide Asks;
    var hits := HitRows(call.activity, call.hits);
    assert forall h :: h in call.hits ==> rows[h] == hits[h];
  }

  /** Publishing makes exactly the rows given, each a manifest object or a deliverable. */
  lemma PublishEffect(c: Catalog, r: Request)
    requires r.call.Publish? && Handle(c, r).Commit?
    ensures Made(c, Next(c, r), r.call.activity, r.call.who, r.call.uses, r.call.rows)
  {
    hide Handle, Next, Apply, KeyUnused, Made, Plan, OneShotRows;
    CommittedRequest(c, r);
    PublishPlanned(c, r.call);
    hide Plans;
    MadeByRequest(c, r, r.call.uses, r.call.rows);
  }

  lemma PublishPlanned(c: Catalog, call: Call)
    requires call.Publish? && Plan(c, call).Commit?
    ensures Plans(Plan(c, call).state, call.activity, call.who, call.uses, call.rows)
  {
    hide OneShotRows;
  }

  // ---- The remaining calls ----

  /** Storing a cache row commits for a new key, an existing activity and distinct existing
      outputs, and adds that row alone. */
  lemma StoreCacheEffect(c: Catalog, r: Request)
    requires r.call.StoreCache?
    ensures var key, source, outputs := r.call.key, r.call.source, r.call.outputs;
            && (Handle(c, r).Commit? <==>
                  KeyUnused(c, r) && key !in c.cache && source in c.core.activities && NoneTwice(outputs)
                  && forall x :: x in outputs ==> x in c.core.entities)
            && (Handle(c, r).Commit? ==>
                  var d := Next(c, r);
                  Keeps(c.core, d.core, true, true, true) && d.details == c.details && d.producers == c.producers && d.findings == c.findings
                  && d.cache == c.cache[key := CacheRow(source, outputs)])
  {
    hide Handle, Next, KeyUnused, Plan, Apply;
    CommittedRequest(c, r);
    CachePlan(c, r.call);
    TouchCommits(c.core);
    if Handle(c, r).Commit? {
      var d := Next(c, r);
      var e := d.(keys := c.keys);
      assert d.core == e.core && d.details == e.details && d.producers == e.producers && d.findings == e.findings && d.cache == e.cache;
      assert c.details + map[] == c.details && c.producers + map[] == c.producers && c.findings + map[] == c.findings;
      assert c.cache + map[r.call.key := CacheRow(r.call.source, r.call.outputs)] == c.cache[r.call.key := CacheRow(r.call.source, r.call.outputs)];
    }
  }

  lemma TouchCommits(c: Core)
    ensures Apply(c, OpTouch).Commit? && Keeps(c, Apply(c, OpTouch).state, true, true, true)
  {
  }

  lemma CachePlan(c: Catalog, call: Call)
    requires call.StoreCache?
    ensures Plan(c, call).Commit? <==>
      call.key !in c.cache && call.source in c.core.activities && NoneTwice(call.outputs) && forall x :: x in call.outputs ==> x in c.core.entities
    ensures Plan(c, call).Commit? ==>
      Plan(c, call).state == Effect(OpTouch, map[], map[], map[], map[call.key := CacheRow(call.source, call.outputs)])
  {
  }

  /** A request to begin, seal or interrupt commits exactly when the step does, and does no more. */
  lemma PlainRequestEffect(c: Catalog, r: Request)
    requires r.call.BeginActivity? || r.call.SealActivity? || r.call.MarkInterrupted? || r.call.TouchCase?
    ensures var step := match r.call
                        case BeginActivity(a, who) => OpBegin(a, who)
                        case SealActivity(a) => OpSeal(a)
                        case MarkInterrupted(ids) => OpInterrupt(ids)
                        case _ => OpTouch;
            && (Handle(c, r).Commit? <==> KeyUnused(c, r) && Apply(c.core, step).Commit?)
            && (Handle(c, r).Commit? ==> KeepsRows(c, Next(c, r)) && Next(c, r).core == Apply(c.core, step).state)
  {
    hide Handle, Next, Apply, KeyUnused, KeepsRows;
    CommittedRequest(c, r);
    if Handle(c, r).Commit? {
      PlainTables(c, r);
    }
  }

  /** What must hold for an emission. */
  ghost predicate MayEmit(c: Catalog, call: Call) {
    match call
    case Capture(a, id, birth, _, _, _) => birth.kind == Kind.Object && IsRunning(c.core, a) && id !in c.core.entities
    case EmitArtifact(a, id, _, key, artifact) =>
      && artifact.ArtifactRow? && artifact.artifactType != "" && artifact.source.text != "" && artifact.producedBy == a
      && (key == "" || ProducerKey(Kind.Artifact, a, key) !in c.producers) && IsRunning(c.core, a)
      && (exists role :: Edge(a, artifact.source, role) in c.core.inputs)
      && artifact.source in c.details && c.details[artifact.source].ObjectRow? && id !in c.core.entities
    case Relate(a, id, key, assertion) =>
      && assertion.AssertionRow? && assertion.assertionType != "" && assertion.targets != [] && assertion.producedBy == a
      && (key == "" || ProducerKey(Kind.Assertion, a, key) !in c.producers) && IsRunning(c.core, a)
      && (forall t :: t in assertion.targets ==> t.id in c.core.entities) && id !in c.core.entities
    case _ => false
  }

  lemma EmissionCommitsIff(c: Catalog, r: Request)
    requires r.call.Capture? || r.call.EmitArtifact? || r.call.Relate?
    ensures Handle(c, r).Commit? <==> KeyUnused(c, r) && MayEmit(c, r.call)
  {
    hide Handle, Next, KeyUnused, Apply;
    CommittedRequest(c, r);
    MayBePlanned(c, r.call);
    if Plan(c, r.call).Commit? {
      var row := EmissionPlan(c, r.call);
      EmitEffect(c.core, r.call.activity, r.call.id, row.birth);
    }
    hide Plan, MayEmit, IsRunning;
  }

  lemma MayBePlanned(c: Catalog, call: Call)
    requires call.Capture? || call.EmitArtifact? || call.Relate?
    ensures MayEmit(c, call) <==> Plan(c, call).Commit? && IsRunning(c.core, call.activity) && call.id !in c.core.entities
  {
    if call.EmitArtifact? && call.artifact.ArtifactRow? {
      UsesByRole(c, call.activity, call.artifact.source);
    }
    hide Uses;
  }

  lemma UsesByRole(c: Catalog, a: Id, e: Id)
    ensures Uses(c, a, e) <==> exists role :: Edge(a, e, role) in c.core.inputs
  {
    if i :| i in c.core.inputs && i.activity == a && i.entity == e {
      assert i == Edge(a, e, i.role);
    }
  }

  /** Besides its row an emission leaves its producer key, if it has one, and nothing else. */
  lemma EmissionKeepsRest(c: Catalog, r: Request)
    requires (r.call.Capture? || r.call.EmitArtifact? || r.call.Relate?) && Handle(c, r).Commit?
    ensures var d := Next(c, r);
            && d.findings == c.findings && d.cache == c.cache
            && d.producers == match r.call
               case EmitArtifact(a, id, _, key, _) => if key == "" then c.producers else c.producers[ProducerKey(Kind.Artifact, a, key) := id]
               case Relate(a, id, key, _) => if key == "" then c.producers else c.producers[ProducerKey(Kind.Assertion, a, key) := id]
               case _ => c.producers
  {
    hide Handle, Next, KeyUnused, Apply, Plan;
    CommittedRequest(c, r);
    ProducersPlanned(c, r.call);
    var d := Next(c, r);
    var e := d.(keys := c.keys);
    assert d.producers == e.producers && d.findings == e.findings && d.cache == e.cache;
    assert c.producers + map[] == c.producers && c.findings + map[] == c.findings && c.cache + map[] == c.cache;
    forall k: ProducerKey, id: Id
      ensures c.producers + map[k := id] == c.producers[k := id]
    {
    }
  }

  lemma ProducersPlanned(c: Catalog, call: Call)
    requires (call.Capture? || call.EmitArtifact? || call.Relate?) && Plan(c, call).Commit?
    ensures Plan(c, call).state.findings == map[] && Plan(c, call).state.cache == map[]
    ensures Plan(c, call).state.producers == match call
            case EmitArtifact(a, id, _, key, _) => if key == "" then map[] else map[ProducerKey(Kind.Artifact, a, key) := id]
            case Relate(a, id, key, _) => if key == "" then map[] else map[ProducerKey(Kind.Assertion, a, key) := id]
            case _ => map[]
  {
    hide Produced, Uses, IsObject;
  }

  // ---- Replies and keys ----

  /** What a call that commits returns. */
  function ReplyIds(call: Call): seq<Id> {
    match call
    case TouchCase => []
    case BeginActivity(a, _) => [a]
    case UseInput(a, entity, _) => [a, entity]
    case SealActivity(a) => [a]
    case Capture(_, id, _, _, _, _) => [id]
    case EmitArtifact(_, id, _, _, _) => [id]
    case Relate(_, id, _, _) => [id]
    case FinishActivity(a, _) => [a]
    case MarkInterrupted(_) => []
    case ImportEvidence(_, _, evidence, objectId, _, _, _) => [evidence, objectId]
    case ImportTree(_, _, evidence, tree, manifest, _, _, _) => [tree, evidence, manifest]
    case Freeze(_, _, selection, _, _) => [selection]
    case CreateProjection(_, _, projection, _, _, _) => [projection]
    case SaveSearch(a, _, selection, _, _, _) => [a, selection]
    case Publish(a, _, _, _) => [a]
    case AuthorFinding(_, _, finding, id, _, _) => [finding, id]
    case ReviseFinding(_, _, finding, id, _, _) => [finding, id]
    case StoreCache(_, source, _) => [source]
  }

  /** A committed request returns what it made and the new revision, and stores that reply under
      its key, if it has one, and under no other. */
  lemma ReplySays(c: Catalog, r: Request)
    requires Handle(c, r).Commit?
    ensures var d, reply := Next(c, r), Handle(c, r).reply;
            && d.core.revision == c.core.revision + 1 && reply == Reply(ReplyIds(r.call), d.core.revision)
            && d.keys == if r.key.key == "" then c.keys else c.keys[r.key := KeyRow(r.fingerprint, reply)]
  {
    CommittedRequest(c, r);
    PlannedReply(c, r.call);
    hide Plan, ReplyIds;
    CommitCounts(c.core, Plan(c, r.call).state.step);
    hide Apply, KeyUnused;
  }

  lemma CommitCounts(c: Core, op: CoreOp)
    requires Apply(c, op).Commit?
    ensures Apply(c, op).state.revision == c.revision + 1
  {
    hide NewEntities, InputEdges, OutputEdges;
  }

  lemma PlannedReply(c: Catalog, call: Call)
    requires Plan(c, call).Commit?
    ensures Plan(c, call).reply.ids == ReplyIds(call)
  {
    hide Produced, OneShotRows, RefsOf;
  }

  /** A new case is at revision 1, with the finished activity that made it and nothing else. */
  lemma NewCaseSays(who: Actor, a: Id)
    ensures var c := NewCase(who, a);
            && c.core.revision == 1 && c.core.activities.Keys == {a}
            && c.core.activities[a].state == Succeeded && c.core.activities[a].inputsSealed
            && c.core.activities[a].agent == who.agent && c.core.activities[a].session == who.session
            && c.core.entities == map[] && c.core.inputs == {} && c.core.outputs == map[] && c.details == map[]
            && c.producers == map[] && c.findings == map[] && c.cache == map[] && c.keys == map[]
  {
  }
}
