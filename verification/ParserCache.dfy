/** Deterministic parser reuse. A session first finishes its parse, then lists the outputs of
    the finished activity, and only later stores that listing under the cache key; any other
    request may be served in between. */
module ParserCache {
  import opened Common
  import opened Order
  import opened Provenance
  import opened Catalog
  import opened CatalogInvariants

  function RoleOf(c: Catalog, x: Id): string {
    if x in c.core.outputs then c.core.outputs[x].role else ""
  }

  /** ORDER BY role, id. */
  function OutputOrder(c: Catalog): (Id, Id) -> bool {
    (x: Id, y: Id) => StringLess(RoleOf(c, x), RoleOf(c, y)) || (RoleOf(c, x) == RoleOf(c, y) && StringLess(x.text, y.text))
  }

  function OutputsOf(c: Catalog, a: Id): set<Id> {
    set x | x in c.core.outputs && c.core.outputs[x].activity == a
  }

  /** What activityOutputEntities returns. */
  ghost predicate IsListing(c: Catalog, a: Id, outputs: seq<Id>) {
    Sorted(OutputOrder(c), outputs) && Elements(outputs) == OutputsOf(c, a)
  }

  predicate Terminal(c: Catalog, a: Id) {
    a in c.core.activities && !c.core.activities[a].state.Running?
  }

  /** Reads the output listing of an activity row by row. */
  method ActivityOutputEntities(c: Catalog, a: Id) returns (outputs: seq<Id>)
    ensures IsListing(c, a, outputs)
    ensures forall x :: x in outputs <==> x in c.core.outputs && c.core.outputs[x].activity == a
    ensures forall i, j :: 0 <= i < j < |outputs| ==> InListOrder(c, outputs[i], outputs[j])
  {
    OutputOrderIsStrictTotal(c);
    outputs := SortedRows(OutputOrder(c), OutputsOf(c, a));
    ListingSays(c, a, outputs);
  }

  /** A listing holds exactly the outputs of the activity, by role and then by identifier. */
  lemma ListingSays(c: Catalog, a: Id, outputs: seq<Id>)
    requires IsListing(c, a, outputs)
    ensures forall x :: x in outputs <==> x in c.core.outputs && c.core.outputs[x].activity == a
    ensures forall i, j :: 0 <= i < j < |outputs| ==> InListOrder(c, outputs[i], outputs[j])
  {
    forall x
      ensures x in outputs <==> x in c.core.outputs && c.core.outputs[x].activity == a
    {
      assert x in Elements(outputs) <==> x in OutputsOf(c, a);
    }
    hide StringLess, IsListing, OutputsOf;
    forall i, j | 0 <= i < j < |outputs|
      ensures InListOrder(c, outputs[i], outputs[j])
    {
      assert OutputOrder(c)(outputs[i], outputs[j]) by {
        InSortedOrder(c, a, outputs, i, j);
      }
      assert outputs[i] in outputs && outputs[j] in outputs;
    }
  }

  lemma InSortedOrder(c: Catalog, a: Id, outputs: seq<Id>, i: nat, j: nat)
    requires IsListing(c, a, outputs) && i < j < |outputs|
    ensures OutputOrder(c)(outputs[i], outputs[j])
  {
    hide OutputOrder;
  }

  /** Two outputs in the order of their edges' roles, those of one role by identifier. */
  ghost predicate InListOrder(c: Catalog, x: Id, y: Id) {
    x in c.core.outputs && y in c.core.outputs
    && var r, s := c.core.outputs[x].role, c.core.outputs[y].role;
       StringLess(r, s) || (r == s && StringLess(x.text, y.text))
  }

  lemma OutputOrderIsStrictTotal(c: Catalog)
    ensures StrictTotal(OutputOrder(c))
  {
    StringLessIsStrictTotal();
    var less := OutputOrder(c);
    forall x, y, z | less(x, y) && less(y, z)
      ensures less(x, z)
    {
    }
    forall x, y
      ensures x == y || less(x, y) || less(y, x)
    {
      assert x.text == y.text ==> x == y;
    }
  }

  lemma ListingIsUnique(c: Catalog, a: Id, s: seq<Id>, t: seq<Id>)
    requires IsListing(c, a, s) && IsListing(c, a, t)
    ensures s == t
  {
    OutputOrderIsStrictTotal(c);
    SortedUnique(OutputOrder(c), s, t);
  }

  /** A terminal activity's listing never changes. */
  lemma ListingIsStable(c: Catalog, d: Catalog, a: Id, s: seq<Id>)
    requires Inv(c) && Inv(d) && Extends(c, d) && Terminal(c, a) && IsListing(c, a, s)
    ensures Terminal(d, a) && IsListing(d, a, s)
  {
    hide DetailsOk, ProducersOk, FindingsOk;
    assert OutputsOf(d, a) == OutputsOf(c, a);
    forall i | 0 <= i < |s|
      ensures RoleOf(d, s[i]) == RoleOf(c, s[i])
    {
      assert s[i] in Elements(s);
    }
    forall i, j | 0 <= i < j < |s|
      ensures OutputOrder(d)(s[i], s[j])
    {
      assert OutputOrder(c)(s[i], s[j]);
    }
  }

  // ---- The system: one catalog, any number of parsing sessions ----

  datatype Done = Done(source: Id, outputs: seq<Id>)

  /** ended holds the activities whose Finish has returned without an error, finished what each
      parsing session has listed but not yet stored. */
  datatype System = System(cat: Catalog, ended: set<Id>, finished: map<string, Done>)

  datatype Step =
    | Serve(request: Request)
    | Finish(source: Id, outcome: ActivityState)
    | ListOutputs(session: string, source: Id, outputs: seq<Id>)
    | Store(session: string, key: string)

  /** Cache rows are only written by sessions, from what they listed after their Finish. */
  ghost predicate Enabled(s: System, step: Step) {
    match step
    case Serve(r) => !r.call.StoreCache?
    case Finish(_, _) => true
    case ListOutputs(_, source, outputs) => source in s.ended && IsListing(s.cat, source, outputs)
    case Store(session, _) => session in s.finished
  }

  function FinishRequest(source: Id, outcome: ActivityState): Request {
    Request(IdempotencyKey("", "", ""), "", FinishActivity(source, outcome))
  }

  /** Finish returns nil when its transaction commits or finds the same outcome stored. */
  function FinishSource(s: System, source: Id, outcome: ActivityState): System {
    var r := FinishRequest(source, outcome);
    System(Next(s.cat, r), if Handle(s.cat, r).Abort? then s.ended else s.ended + {source}, s.finished)
  }

  function StoreRequest(key: string, done: Done): Request {
    Request(IdempotencyKey("", "", ""), "", StoreCache(key, done.source, done.outputs))
  }

  ghost function Take(s: System, step: Step): System {
    if !Enabled(s, step) then s
    else match step
    case Serve(r) => s.(cat := Next(s.cat, r))
    case Finish(source, outcome) => FinishSource(s, source, outcome)
    case ListOutputs(session, source, outputs) => s.(finished := s.finished[session := Done(source, outputs)])
    case Store(session, key) => s.(cat := Next(s.cat, StoreRequest(key, s.finished[session])))
  }

  ghost function RunSystem(s: System, steps: seq<Step>): System
    decreases |steps|
  {
    if steps == [] then s else RunSystem(Take(s, steps[0]), steps[1..])
  }

  ghost predicate Exact(c: Catalog, done: Done) {
    Terminal(c, done.source) && IsListing(c, done.source, done.outputs)
  }

  /** An activity whose Finish returned without an error is terminal, and every cache row, and
      every row about to be stored, lists such an activity exactly. */
  ghost predicate CacheExact(s: System) {
    && Inv(s.cat)
    && (forall a :: a in s.ended ==> Terminal(s.cat, a))
    && (forall k :: k in s.cat.cache ==> Exact(s.cat, Done(s.cat.cache[k].source, s.cat.cache[k].outputs)))
    && (forall p :: p in s.finished ==> Exact(s.cat, s.finished[p]))
  }

  lemma ExactIsStable(c: Catalog, d: Catalog, done: Done)
    requires Inv(c) && Inv(d) && Extends(c, d) && Exact(c, done)
    ensures Exact(d, done)
  {
    ListingIsStable(c, d, done.source, done.outputs);
  }

  /** Whether its transaction commits or replays, after a Finish the activity is terminal. */
  lemma FinishEnds(c: Catalog, source: Id, outcome: ActivityState)
    requires !Handle(c, FinishRequest(source, outcome)).Abort?
    ensures Terminal(Next(c, FinishRequest(source, outcome)), source)
  {
  }

  lemma TerminalStays(c: Catalog, d: Catalog, a: Id)
    requires Extends(c, d) && Terminal(c, a)
    ensures Terminal(d, a)
  {
  }

  /** Only a store writes a cache row, and it writes the row it was given. */
  lemma CacheAfter(c: Catalog, r: Request)
    ensures var d := Next(c, r);
            && (!r.call.StoreCache? ==> d.cache == c.cache)
            && (r.call.StoreCache? && !Handle(c, r).Commit? ==> d.cache == c.cache)
            && (r.call.StoreCache? && Handle(c, r).Commit? ==>
                  r.call.key !in c.cache && d.cache == c.cache[r.call.key := CacheRow(r.call.source, r.call.outputs)])
  {
    hide ApplyCall;
    if r.call.StoreCache? {
      if ApplyCall(c, r.call).Commit? {
        StoredCache(c, r.call);
      }
    } else {
      OtherCacheUnchanged(c, r.call);
    }
  }

  lemma StoredCache(c: Catalog, call: Call)
    requires call.StoreCache? && ApplyCall(c, call).Commit?
    ensures call.key !in c.cache
    ensures ApplyCall(c, call).state.cache == c.cache[call.key := CacheRow(call.source, call.outputs)]
  {
    hide Apply, NoDuplicates, AllExist;
    var eff := PlanCache(c, call.key, call.source, call.outputs).state;
    assert eff.cache == map[call.key := CacheRow(call.source, call.outputs)];
  }

  lemma OtherCacheUnchanged(c: Catalog, call: Call)
    requires !call.StoreCache?
    ensures ApplyCall(c, call).Commit? ==> ApplyCall(c, call).state.cache == c.cache
  {
    if ApplyCall(c, call).Commit? {
      var eff, reply := Plan(c, call).state, Plan(c, call).reply;
      hide Apply, Plan;
      NoCacheWritten(c, call, eff, reply);
    }
  }

  lemma TakeKeeps(s: System, step: Step)
    requires CacheExact(s)
    ensures CacheExact(Take(s, step)) && Extends(s.cat, Take(s, step).cat)
  {
    hide Inv, Extends, Handle, Next, Terminal, IsListing, Exact;
    var t := Take(s, step);
    ExtendsReflexive(s.cat);
    if Enabled(s, step) {
      match step {
        case Serve(r) =>
          RequestKeeps(s.cat, r);
          CacheAfter(s.cat, r);
          AllStayExact(s, t);
        case Finish(source, outcome) =>
          RequestKeeps(s.cat, FinishRequest(source, outcome));
          CacheAfter(s.cat, FinishRequest(source, outcome));
          FinishKeeps(s, source, outcome);
        case ListOutputs(session, source, outputs) => ListedIsExact(s, session, source, outputs);
        case Store(session, key) =>
          var r := StoreRequest(key, s.finished[session]);
          RequestKeeps(s.cat, r);
          CacheAfter(s.cat, r);
          AllStayExact(s, t);
      }
    }
  }

  lemma FinishKeeps(s: System, source: Id, outcome: ActivityState)
    requires CacheExact(s)
    requires var d := Next(s.cat, FinishRequest(source, outcome)); Inv(d) && Extends(s.cat, d) && d.cache == s.cat.cache
    ensures CacheExact(FinishSource(s, source, outcome))
  {
    hide Inv, Extends, Handle, Next, Terminal, Exact;
    var t := s.(cat := Next(s.cat, FinishRequest(source, outcome)));
    AllStayExact(s, t);
    if !Handle(s.cat, FinishRequest(source, outcome)).Abort? {
      FinishEnds(s.cat, source, outcome);
    }
  }

  lemma ListedIsExact(s: System, session: string, source: Id, outputs: seq<Id>)
    requires CacheExact(s) && Enabled(s, ListOutputs(session, source, outputs))
    ensures CacheExact(Take(s, ListOutputs(session, source, outputs)))
  {
    hide Inv, Terminal, IsListing;
  }

  lemma AllStayExact(s: System, t: System)
    requires CacheExact(s) && Inv(t.cat) && Extends(s.cat, t.cat) && t.finished == s.finished && t.ended == s.ended
    requires forall k :: k in t.cat.cache && k !in s.cat.cache ==>
      exists p :: p in s.finished && s.finished[p] == Done(t.cat.cache[k].source, t.cat.cache[k].outputs)
    requires forall k :: k in s.cat.cache ==> k in t.cat.cache && t.cat.cache[k] == s.cat.cache[k]
    ensures CacheExact(t)
  {
    hide Inv, Extends, Exact, Terminal;
    forall a | a in t.ended
      ensures Terminal(t.cat, a)
    {
      TerminalStays(s.cat, t.cat, a);
    }
    forall k | k in t.cat.cache
      ensures Exact(t.cat, Done(t.cat.cache[k].source, t.cat.cache[k].outputs))
    {
      ExactIsStable(s.cat, t.cat, Done(t.cat.cache[k].source, t.cat.cache[k].outputs));
    }
    forall p | p in t.finished
      ensures Exact(t.cat, t.finished[p])
    {
      ExactIsStable(s.cat, t.cat, s.finished[p]);
    }
  }

  /** In every run of any number of sessions the parser cache stays exact. */
  lemma {:induction false} CacheStaysExact(s: System, steps: seq<Step>)
    requires CacheExact(s)
    ensures CacheExact(RunSystem(s, steps)) && Extends(s.cat, RunSystem(s, steps).cat)
    decreases |steps|
  {
    hide CacheExact, Extends, Take;
    if steps == [] {
      ExtendsReflexive(s.cat);
    } else {
      TakeKeeps(s, steps[0]);
      var t := Take(s, steps[0]);
      CacheStaysExact(t, steps[1..]);
      ExtendsTransitive(s.cat, t.cat, RunSystem(t, steps[1..]).cat);
    }
  }

  /** A cache hit returns what listing the source activity again would return, now and ever
      after, and the row a key got first is the row it keeps. */
  lemma HitEqualsRecomputation(who: Actor, a: Id, steps: seq<Step>, more: seq<Step>, key: string, again: seq<Id>)
    requires key in RunSystem(System(NewCase(who, a), {}, map[]), steps).cat.cache
    requires var s := RunSystem(System(NewCase(who, a), {}, map[]), steps);
             IsListing(RunSystem(s, more).cat, s.cat.cache[key].source, again)
    ensures var s := RunSystem(System(NewCase(who, a), {}, map[]), steps);
            var t := RunSystem(s, more);
            && key in t.cat.cache && t.cat.cache[key] == s.cat.cache[key] && t.cat.cache[key].outputs == again
            && Terminal(t.cat, t.cat.cache[key].source)
  {
    hide Inv, IsListing, RunSystem, CoreExtends;
    NewCaseInv(who, a);
    var start := System(NewCase(who, a), {}, map[]);
    CacheStaysExact(start, steps);
    var s := RunSystem(start, steps);
    CacheStaysExact(s, more);
    var t := RunSystem(s, more);
    ListingIsUnique(t.cat, t.cat.cache[key].source, t.cat.cache[key].outputs, again);
  }

  /** An activity whose Finish has returned without an error is terminal, then and ever after. */
  lemma EndedIsTerminal(who: Actor, a: Id, steps: seq<Step>, more: seq<Step>, source: Id)
    requires source in RunSystem(System(NewCase(who, a), {}, map[]), steps).ended
    ensures var s := RunSystem(System(NewCase(who, a), {}, map[]), steps);
            Terminal(s.cat, source) && Terminal(RunSystem(s, more).cat, source)
  {
    hide Inv, IsListing, RunSystem, Extends, Terminal;
    NewCaseInv(who, a);
    var start := System(NewCase(who, a), {}, map[]);
    CacheStaysExact(start, steps);
    var s := RunSystem(start, steps);
    CacheStaysExact(s, more);
    TerminalStays(s.cat, RunSystem(s, more).cat, source);
  }

  /** The parser-cache-output check of Verify never reports: each cached output was generated by
      the cached source activity. */
  lemma CachedOutputsAreGenerated(who: Actor, a: Id, steps: seq<Step>, key: string, x: Id)
    requires var c := RunSystem(System(NewCase(who, a), {}, map[]), steps).cat; key in c.cache && x in c.cache[key].outputs
    ensures var c := RunSystem(System(NewCase(who, a), {}, map[]), steps).cat;
            x in c.core.entities && c.core.entities[x].generator == c.cache[key].source
  {
    hide RunSystem, Inv, Terminal;
    NewCaseInv(who, a);
    var start := System(NewCase(who, a), {}, map[]);
    CacheStaysExact(start, steps);
    var c := RunSystem(start, steps).cat;
    assert Exact(c, Done(c.cache[key].source, c.cache[key].outputs));
    OutputsAreGenerated(c, c.cache[key].source, c.cache[key].outputs, x);
  }

  lemma OutputsAreGenerated(c: Catalog, a: Id, outputs: seq<Id>, x: Id)
    requires Inv(c) && IsListing(c, a, outputs) && x in outputs
    ensures x in c.core.entities && c.core.entities[x].generator == a
  {
    hide DetailsOk, ProducersOk, FindingsOk;
    assert x in Elements(outputs);
  }
}
